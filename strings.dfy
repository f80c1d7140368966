/** The few JavaScript string operations the core relies on: `includes`,
    `split` on one separator character, and the decimal rendering of numbers
    inside template literals (`task_${id}`). A string here is a sequence of
    Unicode scalar values, so its length agrees with JavaScript's `length`
    (which counts UTF-16 code units) only on text inside the Basic
    Multilingual Plane. */
module Strings {
  import opened Lists

  /** `s.includes(m)`: `m` occurs in `s` at some offset (the empty string occurs everywhere). */
  predicate Contains(s: string, m: string)
    decreases |s|
  {
    IsPrefix(m, s) || (|s| > 0 && Contains(s[1..], m))
  }

  /** An occurrence at offset `k` is enough for `includes`. */
  lemma {:induction false} ContainsAt(s: string, m: string, k: nat)
    requires k + |m| <= |s| && s[k..k + |m|] == m
    ensures Contains(s, m)
    decreases k
  {
    if k == 0 {
      assert s[..|m|] == m;
    } else {
      assert s[1..][k - 1..k - 1 + |m|] == s[k..k + |m|];
      ContainsAt(s[1..], m, k - 1);
    }
  }

  /** Every occurrence sits at some offset. */
  lemma {:induction false} ContainsOffset(s: string, m: string) returns (k: nat)
    requires Contains(s, m)
    ensures k + |m| <= |s| && s[k..k + |m|] == m
    decreases |s|
  {
    if IsPrefix(m, s) {
      k := 0;
    } else {
      var j := ContainsOffset(s[1..], m);
      assert s[1..][j..j + |m|] == s[j + 1..j + 1 + |m|];
      k := j + 1;
    }
  }

  /** A string containing a non-empty `m` contains `m`'s first character. */
  lemma ContainsFirstChar(s: string, m: string)
    requires |m| > 0 && Contains(s, m)
    ensures m[0] in s
  {
    var k := ContainsOffset(s, m);
    assert s[k] == s[k..k + |m|][0];
  }

  /** `includes` is transitive: an occurrence of an occurrence is an occurrence. */
  lemma ContainsTransitive(s: string, a: string, b: string)
    requires Contains(s, a) && Contains(a, b)
    ensures Contains(s, b)
  {
    var i := ContainsOffset(s, a);
    var j := ContainsOffset(a, b);
    forall t | 0 <= t < |b| ensures s[i + j + t] == b[t] {
      assert b[t] == a[j..j + |b|][t] == a[j + t];
      assert a[j + t] == s[i..i + |a|][j + t];
    }
    assert s[i + j..i + j + |b|] == b;
    ContainsAt(s, b, i + j);
  }

  /** `s.split(sep)` for a one-character separator: the text between separators,
      including empty pieces; the empty string splits into one empty piece. */
  function Split(s: string, sep: char): (parts: seq<string>)
    ensures |parts| >= 1
    ensures forall i :: 0 <= i < |parts| ==> sep !in parts[i]
    decreases |s|
  {
    if s == [] then [[]]
    else
      var rest := Split(s[1..], sep);
      if s[0] == sep then [[]] + rest
      else [[s[0]] + rest[0]] + rest[1..]
  }

  /** `parts.join(sep)`. */
  function Join(parts: seq<string>, sep: char): string
    requires |parts| >= 1
    decreases |parts|
  {
    if |parts| == 1 then parts[0] else parts[0] + [sep] + Join(parts[1..], sep)
  }

  /** Joining what was split gives the string back. */
  lemma {:induction false} JoinSplit(s: string, sep: char)
    ensures Join(Split(s, sep), sep) == s
    decreases |s|
  {
    if s != [] {
      var rest := Split(s[1..], sep);
      JoinSplit(s[1..], sep);
      if s[0] == sep {
        assert Split(s, sep) == [[]] + rest;
        assert Split(s, sep)[1..] == rest;
      } else {
        var parts := Split(s, sep);
        assert parts == [[s[0]] + rest[0]] + rest[1..];
        if |rest| == 1 {
          assert parts == [[s[0]] + rest[0]];
        } else {
          assert parts[1..] == rest[1..];
          assert Join(rest, sep) == rest[0] + [sep] + Join(rest[1..], sep);
        }
        assert s == [s[0]] + s[1..];
      }
    }
  }

  /** Splitting what was joined gives the pieces back, when no piece holds the separator. */
  lemma {:induction false} SplitJoin(parts: seq<string>, sep: char)
    requires |parts| >= 1
    requires forall i :: 0 <= i < |parts| ==> sep !in parts[i]
    ensures Split(Join(parts, sep), sep) == parts
    decreases |parts|, |parts[0]|
  {
    var head := parts[0];
    if head == [] {
      if |parts| > 1 {
        SplitJoin(parts[1..], sep);
        assert Join(parts, sep) == [sep] + Join(parts[1..], sep);
        assert ([sep] + Join(parts[1..], sep))[1..] == Join(parts[1..], sep);
        assert parts == [[]] + parts[1..];
      }
    } else {
      var shorter := [head[1..]] + parts[1..];
      assert sep !in shorter[0];
      assert forall i :: 1 <= i < |shorter| ==> shorter[i] == parts[i];
      SplitJoin(shorter, sep);
      var joined := Join(parts, sep);
      assert Join(shorter, sep) == joined[1..] by {
        if |parts| > 1 {
          assert shorter[1..] == parts[1..];
        }
      }
      assert joined[0] == head[0];
      assert head[0] != sep by { assert head[0] in parts[0]; }
      var rest := Split(joined[1..], sep);
      assert rest == shorter;
      assert Split(joined, sep) == [[head[0]] + head[1..]] + parts[1..];
      assert [head[0]] + head[1..] == head;
      assert parts == [head] + parts[1..];
    }
  }

  /** Joining two joined lists with the separator between them joins their concatenation. */
  lemma {:induction false} JoinAppend(a: seq<string>, b: seq<string>, sep: char)
    requires |a| >= 1 && |b| >= 1
    ensures Join(a + b, sep) == Join(a, sep) + [sep] + Join(b, sep)
    decreases |a|
  {
    if |a| == 1 {
      assert (a + b)[1..] == b;
    } else {
      assert (a + b)[1..] == a[1..] + b;
      JoinAppend(a[1..], b, sep);
    }
  }

  /** The pieces of `a + sep + b` are the pieces of `a` followed by those of `b`. */
  lemma SplitAround(a: string, b: string, sep: char)
    ensures Split(a + [sep] + b, sep) == Split(a, sep) + Split(b, sep)
  {
    var pa, pb := Split(a, sep), Split(b, sep);
    JoinSplit(a, sep);
    JoinSplit(b, sep);
    JoinAppend(pa, pb, sep);
    assert forall i :: 0 <= i < |pa + pb| ==> sep !in (pa + pb)[i] by {
      forall i | 0 <= i < |pa + pb| ensures sep !in (pa + pb)[i] {
        if i < |pa| { assert (pa + pb)[i] == pa[i]; } else { assert (pa + pb)[i] == pb[i - |pa|]; }
      }
    }
    SplitJoin(pa + pb, sep);
  }

  /** The character of one decimal digit. */
  function DigitChar(d: nat): (c: char)
    requires d < 10
    ensures '0' <= c <= '9'
  {
    (48 + d) as char
  }

  /** The decimal rendering JavaScript gives a non-negative integer. */
  function NatToDecimal(n: nat): (s: string)
    ensures |s| >= 1
    ensures |s| == 1 <==> n < 10
    ensures forall i :: 0 <= i < |s| ==> '0' <= s[i] <= '9'
    decreases n
  {
    if n < 10 then [DigitChar(n)] else NatToDecimal(n / 10) + [DigitChar(n % 10)]
  }

  /** The decimal rendering JavaScript gives any integer. */
  function IntToDecimal(n: int): string {
    if n < 0 then "-" + NatToDecimal(-n) else NatToDecimal(n)
  }

  /** Different numbers render differently. */
  lemma {:induction false} DecimalInjective(a: nat, b: nat)
    requires NatToDecimal(a) == NatToDecimal(b)
    ensures a == b
    decreases a
  {
    var s := NatToDecimal(a);
    if a >= 10 {
      assert b >= 10;
      var pa, pb := NatToDecimal(a / 10), NatToDecimal(b / 10);
      assert s == pa + [DigitChar(a % 10)];
      assert s == pb + [DigitChar(b % 10)];
      assert pa == s[..|s| - 1] == pb;
      assert DigitChar(a % 10) == s[|s| - 1] == DigitChar(b % 10);
      DecimalInjective(a / 10, b / 10);
    } else {
      assert b < 10;
    }
  }
}
