/** The handful of Python `str` operations the tool relies on: `sep.join`,
    `split` on one character, `count`, `isdigit`, `upper`/`lower`, `str(n)`
    for a natural number, and the code-point order that `sorted` uses.
    Characters are treated as ASCII for `isdigit`, `upper` and `lower`. */
module Strings {

  /** `sep.join(parts)`. */
  function Join(sep: string, parts: seq<string>): (r: string)
    ensures |parts| == 0 ==> r == ""
    ensures |parts| >= 1 ==> parts[0] <= r
    ensures |parts| >= 2 ==> |r| >= |parts[0]| + |sep|
  {
    if |parts| == 0 then ""
    else if |parts| == 1 then parts[0]
    else parts[0] + sep + Join(sep, parts[1..])
  }

  /** `s.count(c)` for a one-character argument. */
  function Count(s: string, c: char): nat
  {
    if s == [] then 0 else (if s[0] == c then 1 else 0) + Count(s[1..], c)
  }

  lemma {:induction false} CountZeroIff(s: string, c: char)
    ensures Count(s, c) == 0 <==> c !in s
  {
    if s != [] {
      CountZeroIff(s[1..], c);
      assert s == [s[0]] + s[1..];
    }
  }

  /** `s.split(c)` for a one-character separator: `Count(s, c) + 1` pieces,
      none holding the separator, that join back to `s`. */
  function Split(s: string, c: char): (parts: seq<string>)
    ensures |parts| == Count(s, c) + 1
    ensures forall i :: 0 <= i < |parts| ==> c !in parts[i]
    ensures Join([c], parts) == s
    decreases |s|
  {
    if s == [] then [""]
    else
      var rest := Split(s[1..], c);
      if s[0] == c then
        assert ([""] + rest)[1..] == rest;
        [""] + rest
      else
        var parts := [[s[0]] + rest[0]] + rest[1..];
        assert parts[1..] == rest[1..];
        assert c !in parts[0] by {
          forall k | 0 <= k < |parts[0]| ensures parts[0][k] != c {
            if k > 0 { assert parts[0][k] == rest[0][k - 1]; }
          }
        }
        assert s == [s[0]] + s[1..];
        parts
  }

  /** Splitting what `Join` built, on a separator none of the pieces holds,
      gives the pieces back. */
  lemma {:induction false} SplitJoin(parts: seq<string>, c: char)
    requires |parts| >= 1
    requires forall i :: 0 <= i < |parts| ==> c !in parts[i]
    ensures Split(Join([c], parts), c) == parts
    decreases |parts|, |parts[0]|
  {
    var s := Join([c], parts);
    if parts[0] == [] {
      if |parts| == 1 {
        assert s == "";
      } else {
        assert s == [c] + Join([c], parts[1..]);
        assert s[1..] == Join([c], parts[1..]);
        SplitJoin(parts[1..], c);
        assert parts == [""] + parts[1..];
      }
    } else {
      var h := parts[0];
      var parts' := [h[1..]] + parts[1..];
      assert parts'[1..] == parts[1..];
      assert s[0] == h[0] && s[0] != c;
      assert c !in h[1..] by {
        forall k | 0 <= k < |h[1..]| ensures h[1..][k] != c {
          assert h[1..][k] == h[k + 1];
        }
      }
      assert forall i :: 0 <= i < |parts'| ==> c !in parts'[i] by {
        forall i | 0 <= i < |parts'| ensures c !in parts'[i] {
          if i > 0 { assert parts'[i] == parts[i]; }
        }
      }
      assert s[1..] == Join([c], parts') by {
        if |parts| == 1 {
          assert s == h;
        } else {
          assert s == h + [c] + Join([c], parts[1..]);
          assert Join([c], parts') == h[1..] + [c] + Join([c], parts[1..]);
        }
      }
      SplitJoin(parts', c);
      assert [h] + parts[1..] == parts;
      assert [h[0]] + h[1..] == h;
    }
  }

  /** Joining a tail of the pieces gives a tail of the joined string, and
      when pieces were dropped, a separator comes right before it. */
  lemma {:induction false} JoinSuffix(parts: seq<string>, k: nat, c: char)
    requires k < |parts|
    ensures var j := Join([c], parts);
      var t := Join([c], parts[k..]);
      && |t| <= |j| && j[|j| - |t|..] == t
      && (k > 0 ==> |t| < |j| && j[|j| - |t| - 1] == c)
    decreases k
  {
    if k > 0 {
      JoinSuffix(parts[1..], k - 1, c);
      assert parts[1..][k - 1..] == parts[k..];
      var rest := Join([c], parts[1..]);
      assert Join([c], parts) == parts[0] + [c] + rest;
    }
  }

  /** The last piece of a split is the tail of the string after the last
      separator (the whole string when there is none). */
  lemma {:induction false} SplitLastIsSuffix(s: string, c: char)
    ensures var last := Split(s, c)[|Split(s, c)| - 1];
      |last| <= |s| && s[|s| - |last|..] == last &&
      (|last| == |s| || s[|s| - |last| - 1] == c)
    decreases |s|
  {
    if s != [] {
      SplitLastIsSuffix(s[1..], c);
      var rest := Split(s[1..], c);
      if s[0] != c && |rest| == 1 {
        assert Join([c], rest) == rest[0];
      }
    }
  }

  /** `s.split(c)[-1]`: what follows the last separator. */
  function LastSegment(s: string, c: char): (r: string)
    ensures c !in r
    ensures |r| <= |s| && s[|s| - |r|..] == r
    ensures |r| == |s| || s[|s| - |r| - 1] == c
  {
    var parts := Split(s, c);
    SplitLastIsSuffix(s, c);
    parts[|parts| - 1]
  }

  /** Python's `str.isdigit` over ASCII: non-empty and every character a digit. */
  predicate IsDigits(s: string)
  {
    |s| > 0 && forall i :: 0 <= i < |s| ==> '0' <= s[i] <= '9'
  }

  function UpperChar(ch: char): char
  {
    if 'a' <= ch <= 'z' then (ch as int - 32) as char else ch
  }

  function LowerChar(ch: char): char
  {
    if 'A' <= ch <= 'Z' then (ch as int + 32) as char else ch
  }

  /** `s.upper()` over ASCII. */
  function Upper(s: string): (r: string)
    ensures |r| == |s|
    ensures forall i :: 0 <= i < |s| ==> r[i] == UpperChar(s[i])
  {
    seq(|s|, i requires 0 <= i < |s| => UpperChar(s[i]))
  }

  /** `s.lower()` over ASCII. */
  function Lower(s: string): (r: string)
    ensures |r| == |s|
    ensures forall i :: 0 <= i < |s| ==> r[i] == LowerChar(s[i])
  {
    seq(|s|, i requires 0 <= i < |s| => LowerChar(s[i]))
  }

  function DigitChar(d: nat): char
    requires d < 10
  {
    ('0' as int + d) as char
  }

  /** `str(n)` for a natural number. */
  function Decimal(n: nat): (r: string)
    ensures IsDigits(r)
  {
    if n < 10 then [DigitChar(n)] else Decimal(n / 10) + [DigitChar(n % 10)]
  }

  /** Reads a string of digits back as a number, most significant digit first. */
  function ParseDecimal(s: string): nat
    requires forall i :: 0 <= i < |s| ==> '0' <= s[i] <= '9'
  {
    if s == [] then 0
    else ParseDecimal(s[..|s| - 1]) * 10 + (s[|s| - 1] as int - '0' as int)
  }

  lemma {:induction false} DecimalRoundTrip(n: nat)
    ensures ParseDecimal(Decimal(n)) == n
  {
    if n >= 10 {
      DecimalRoundTrip(n / 10);
      var s := Decimal(n);
      assert s[..|s| - 1] == Decimal(n / 10);
    }
  }

  /** Python's `<=` on strings: lexicographic by code point. */
  predicate LexLe(a: string, b: string)
  {
    a == [] || (b != [] && (a[0] < b[0] || (a[0] == b[0] && LexLe(a[1..], b[1..]))))
  }

  lemma {:induction false} LexLeTotal(a: string, b: string)
    ensures LexLe(a, b) || LexLe(b, a)
  {
    if a != [] && b != [] && a[0] == b[0] {
      LexLeTotal(a[1..], b[1..]);
    }
  }

  lemma {:induction false} LexLeTrans(a: string, b: string, c: string)
    requires LexLe(a, b) && LexLe(b, c)
    ensures LexLe(a, c)
  {
    if a != [] && a[0] == b[0] && b[0] == c[0] {
      LexLeTrans(a[1..], b[1..], c[1..]);
    }
  }
}
