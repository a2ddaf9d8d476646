/** A client of the routes: what callers can conclude from the contracts alone. */
module Scenarios {
  import opened Wrappers
  import opened JsNumbers
  import opened Clock
  import opened CreateRules
  import opened PasteStore
  import opened Http
  import opened Server

  /** A blank content is rejected first, whatever the other fields hold. */
  method RejectBlankContent(store: Store)
    requires store.Valid()
    modifies store
    ensures store.pastes == old(store.pastes)
  {
    var blank := CreateBody(Str(" \n\t"), Fraction, Int(0));
    assert !HasText(blank.content) by {
      var s := " \n\t";
      assert JsText.IsWhitespace(s[0]) && JsText.IsWhitespace(s[1]) && JsText.IsWhitespace(s[2]);
    }
    assert Validate(blank) == Failure(BadContent);
    var r := CreatePaste(store, blank, None, "http", Some("h"), "a", 0, true);
    assert r == Response(400, ErrorBody(Message(BadContent)));
  }

  /** An explicit null is not an absent field: it fails the integer check. */
  method RejectNullTtl(store: Store)
    requires store.Valid()
    modifies store
    ensures store.pastes == old(store.pastes)
  {
    assert HasText(Str("x")) by { assert !JsText.IsWhitespace("x"[0]); }
    var nullTtl := CreateBody(Str("x"), Null, Str("2"));
    assert Validate(nullTtl) == Failure(BadTtl);
    var r := CreatePaste(store, nullTtl, None, "http", Some("h"), "a", 0, true);
    assert r == Response(400, ErrorBody(Message(BadTtl)));
    var textViews := CreateBody(Str("x"), Int(5), Str("2"));
    assert Validate(textViews) == Failure(BadMaxViews);
  }

  /** One view allowed, no TTL: created with 201 and the paste's URL. */
  method OneView(t0: int) {
    var store := new Store();
    var body := CreateBody(Str("hello"), Undefined, Int(1));
    assert HasText(Str("hello")) by { assert !JsText.IsWhitespace("hello"[0]); }
    assert Validate(body) == Success(Accepted("hello", None, Some(1)));
    assert SelectProtocol(None, "https") == "https" && HostText(Some("example.com")) == "example.com";
    var created := CreatePaste(store, body, None, "https", Some("example.com"), "X", t0, true);
    assert created == Response(201, CreatedBody("X", PasteUrl("https", "example.com", "X")));
    assert store.pastes == map["X" := Paste("hello", t0, None, Some(1))];
    ReadOnce(store, t0);
  }

  /** The first read gets the content with 0 views left, the second a 404. */
  method ReadOnce(store: Store, t0: int)
    requires store.Valid() && store.pastes == map["X" := Paste("hello", t0, None, Some(1))]
    modifies store
  {
    var first := GetPaste(store, "X", None, None, t0, true);
    assert first == Response(200, PasteBody("hello", Some(0), None));
    assert store.pastes == map["X" := Paste("hello", t0, None, Some(0))];
    var second := GetPaste(store, "X", None, None, t0, true);
    assert second == NotFound();
  }

  /** A ten-second TTL: readable 5 s after creation, gone at 10 s and after. */
  method TenSecondTtl(t0: int) {
    var store := new Store();
    var body := CreateBody(Str("hi"), Int(10), Undefined);
    assert HasText(Str("hi")) by { assert !JsText.IsWhitespace("hi"[0]); }
    assert Validate(body) == Success(Accepted("hi", Some(10), None));
    assert SelectProtocol(Some(""), "http") == "http" && HostText(None) == "undefined";
    var created := CreatePaste(store, body, Some(""), "http", None, "Y", t0, true);
    assert created == Response(201, CreatedBody("Y", PasteUrl("http", "undefined", "Y")));
    assert store.pastes == map["Y" := Paste("hi", t0, Some(t0 + 10000), None)];
    var early := GetPaste(store, "Y", None, None, t0 + 5000, true);
    assert early == Response(200, PasteBody("hi", None, Some(t0 + 10000)));
    var atExpiry := GetPaste(store, "Y", None, None, t0 + 10000, true);
    assert atExpiry == NotFound();
    var later := GetPaste(store, "Y", None, None, t0 + 11000, true);
    assert later == NotFound();
  }

  /** In test mode the header's instant, not the real clock, decides expiry. */
  method TestClock(t0: int) {
    var store := new Store();
    var body := CreateBody(Str("hi"), Int(10), Undefined);
    assert HasText(Str("hi")) by { assert !JsText.IsWhitespace("hi"[0]); }
    assert Validate(body) == Success(Accepted("hi", Some(10), None));
    var created := CreatePaste(store, body, None, "http", Some("h"), "Y", t0, true);
    assert store.pastes == map["Y" := Paste("hi", t0, Some(t0 + 10000), None)];
    ForcedInstant(t0 + 10000, t0);
    var forced := GetPaste(store, "Y", Some(TestModeOn), Some(Decimal(t0 + 10000)), t0, true);
    assert forced == NotFound();
  }

  /** No TTL and no view limit: every read succeeds with null remaining views. */
  method Unlimited(t0: int, later: int) {
    var store := new Store();
    var body := CreateBody(Str("x"), Undefined, Undefined);
    assert HasText(Str("x")) by { assert !JsText.IsWhitespace("x"[0]); }
    assert Validate(body) == Success(Accepted("x", None, None));
    var created := CreatePaste(store, body, None, "http", Some("h"), "Z", t0, true);
    var a := GetPaste(store, "Z", None, None, t0, true);
    var b := GetPaste(store, "Z", None, None, later, true);
    assert a == b == Response(200, PasteBody("x", None, None));
    var missing := GetPaste(store, "W", None, None, later, true);
    assert missing == NotFound();
  }
}
