/** The error-message filter of main.js: `sanitizeContent` and the
    `notification.error` wrapper that applies it to a copied config. */
module Notifications {
  import opened Json
  import opened Strings

  /** The fixed text every suppressed message becomes. */
  const FailureMessage: string := "操作失败，请稍后重试"

  /** Longest message shown as it is. */
  const MaxLength: nat := 300

  /** The condition under which a string message is replaced: one of the
      substrings `sanitizeContent` tests, in its order, or a length over `MaxLength`. */
  predicate Suppressed(s: string) {
    || Contains(s, "private field")
    || Contains(s, "Cannot read from private field")
    || Contains(s, "Cannot access private field")
    || Contains(s, "could not coalesce error")
    || Contains(s, "circuit breaker is open")
    || Contains(s, "UNKNOWN_ERROR")
    || |s| > MaxLength
  }

  /** `sanitizeContent(content)`. */
  function SanitizeContent(content: JsValue): (r: JsValue)
    ensures !content.Str? ==> r == content
    ensures content.Str? ==> r.Str? && (r != content ==> Suppressed(content.s))
    ensures content.Str? && Suppressed(content.s) ==> r == Str(FailureMessage)
  {
    if content.Str? && Suppressed(content.s) then Str(FailureMessage) else content
  }

  /** Both longer "private field" markers contain the short one. */
  lemma LongMarkersContainPrivateField()
    ensures Contains("Cannot read from private field", "private field")
    ensures Contains("Cannot access private field", "private field")
  {
    var pf := "private field";
    var readMarker, accessMarker := "Cannot read from private field", "Cannot access private field";
    assert readMarker[17..] == pf;
    ContainsAt(readMarker, pf, 17);
    assert accessMarker[14..] == pf;
    ContainsAt(accessMarker, pf, 14);
  }

  /** The two longer "private field" markers add nothing: the condition is a four-marker test. */
  lemma SuppressedFourMarkers(s: string)
    ensures Suppressed(s) <==>
      || Contains(s, "private field")
      || Contains(s, "could not coalesce error")
      || Contains(s, "circuit breaker is open")
      || Contains(s, "UNKNOWN_ERROR")
      || |s| > MaxLength
  {
    LongMarkersContainPrivateField();
    if Contains(s, "Cannot read from private field") {
      ContainsTransitive(s, "Cannot read from private field", "private field");
    }
    if Contains(s, "Cannot access private field") {
      ContainsTransitive(s, "Cannot access private field", "private field");
    }
  }

  /** A string of non-ASCII characters holds no marker that starts with an ASCII character. */
  lemma NoMarkerInNonAscii(s: string, m: string)
    requires |m| > 0 && m[0] <= 'z'
    requires forall i :: 0 <= i < |s| ==> s[i] > 'z'
    ensures !Contains(s, m)
  {
    if Contains(s, m) {
      ContainsFirstChar(s, m);
    }
  }

  /** The fixed message is itself shown as it is: it holds no marker and is short. */
  lemma FailureMessageNotSuppressed()
    ensures !Suppressed(FailureMessage)
  {
    var f := FailureMessage;
    assert forall i :: 0 <= i < |f| ==> f[i] > 'z';
    NoMarkerInNonAscii(f, "private field");
    NoMarkerInNonAscii(f, "Cannot read from private field");
    NoMarkerInNonAscii(f, "Cannot access private field");
    NoMarkerInNonAscii(f, "could not coalesce error");
    NoMarkerInNonAscii(f, "circuit breaker is open");
    NoMarkerInNonAscii(f, "UNKNOWN_ERROR");
  }

  /** Sanitising twice is sanitising once. */
  lemma SanitizeIdempotent(content: JsValue)
    ensures SanitizeContent(SanitizeContent(content)) == SanitizeContent(content)
  {
    FailureMessageNotSuppressed();
  }

  /** A key made only of decimal digits, as the index keys of a string are. */
  predicate IsIndexKey(k: string) {
    |k| >= 1 && forall i :: 0 <= i < |k| ==> '0' <= k[i] <= '9'
  }

  /** The index properties `"0"` .. `"n-1"` of a string: its first `n` characters, one per key. */
  function IndexProps(s: string, n: nat): (m: map<string, JsValue>)
    requires n <= |s|
    ensures forall k :: k in m ==> IsIndexKey(k)
    decreases n
  {
    if n == 0 then map[] else IndexProps(s, n - 1)[NatToDecimal(n - 1) := Str([s[n - 1]])]
  }

  /** `{ ...config }`: the own properties of an object, the index properties of a string; `null`,
      `undefined`, numbers and booleans spread to nothing. */
  function SpreadConfig(config: JsValue): (m: map<string, JsValue>)
    ensures config.Obj? ==> m == config.props
    ensures !config.Obj? && !config.Str? ==> m == map[]
    ensures config.Str? ==> "message" !in m && "description" !in m
  {
    match config
    case Obj(props) => props
    case Str(s) =>
      var m := IndexProps(s, |s|);
      assert !IsIndexKey("message") by { assert "message"[0] == 'm'; }
      assert !IsIndexKey("description") by { assert "description"[0] == 'd'; }
      m
    case _ => map[]
  }

  /** Sanitises one field of the copied config when it holds a string: afterwards that field holds no
      suppressed string, and every other field is as it was. */
  function SanitizeField(m: map<string, JsValue>, key: string): (r: map<string, JsValue>)
    ensures r.Keys == m.Keys
    ensures forall k :: k in m && k != key ==> r[k] == m[k]
    ensures key in r ==> r[key] == SanitizeContent(m[key])
    ensures key in r && r[key].Str? ==> !Suppressed(r[key].s)
  {
    FailureMessageNotSuppressed();
    if key in m && m[key].Str? then m[key := SanitizeContent(m[key])] else m
  }

  /** The config the wrapped `notification.error` passes on: neither `message` nor `description` holds a
      suppressed string, and a config that is no object passes as its spread copy. */
  function RewriteNotificationConfig(config: JsValue): (r: map<string, JsValue>)
    ensures forall k :: k in r && (k == "message" || k == "description") && r[k].Str? ==> !Suppressed(r[k].s)
    ensures !config.Obj? ==> r == SpreadConfig(config)
  {
    var once := SanitizeField(SpreadConfig(config), "message");
    var twice := SanitizeField(once, "description");
    assert "message" in twice && twice["message"].Str? ==> !Suppressed(twice["message"].s) by {
      if "message" in twice && twice["message"].Str? {
        SanitizeIdempotent(SpreadConfig(config)["message"]);
      }
    }
    twice
  }

  /** The rewrite keeps every key, sanitises `message` and `description`, and copies every other field as it is. */
  lemma RewriteTouchesOnlyMessageFields(config: JsValue)
    ensures RewriteNotificationConfig(config).Keys == SpreadConfig(config).Keys
    ensures forall k :: k in SpreadConfig(config) && k != "message" && k != "description" ==>
      RewriteNotificationConfig(config)[k] == SpreadConfig(config)[k]
    ensures forall k :: k in SpreadConfig(config) && (k == "message" || k == "description") ==>
      RewriteNotificationConfig(config)[k] == SanitizeContent(SpreadConfig(config)[k])
  {
  }

  /** Rewriting an already rewritten config changes nothing. */
  lemma RewriteIdempotent(config: JsValue)
    ensures RewriteNotificationConfig(Obj(RewriteNotificationConfig(config))) == RewriteNotificationConfig(config)
  {
    var once := RewriteNotificationConfig(config);
    RewriteTouchesOnlyMessageFields(config);
    RewriteTouchesOnlyMessageFields(Obj(once));
    forall k | k in once ensures RewriteNotificationConfig(Obj(once))[k] == once[k] {
      SanitizeIdempotent(SpreadConfig(config)[k]);
    }
  }
}
