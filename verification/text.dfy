/** The handful of Python string operations the core relies on, written out
    over `seq<char>`: substring tests, `split` on one character, `join`,
    `replace`, `int()` and `str()` of a whole number. */
module Text {
  import opened Exceptions

  /** Python's `s.startswith(t)`. */
  predicate StartsWith(s: string, t: string) {
    |t| <= |s| && s[..|t|] == t
  }

  /** Python's `t in s` on strings: `t` occurs somewhere in `s`. */
  predicate Contains(s: string, t: string)
    decreases |s|
  {
    StartsWith(s, t) || (|s| > 0 && Contains(s[1..], t))
  }

  lemma {:induction false} ContainsAt(s: string, t: string, i: nat)
    requires i + |t| <= |s| && s[i..i + |t|] == t
    ensures Contains(s, t)
    decreases i
  {
    if i > 0 {
      assert s[1..][i - 1..i - 1 + |t|] == s[i..i + |t|];
      ContainsAt(s[1..], t, i - 1);
    }
  }

  lemma {:induction false} ContainsSuffix(s: string, t: string, k: nat)
    requires k <= |s| && Contains(s[k..], t)
    ensures Contains(s, t)
    decreases k
  {
    if k > 0 {
      assert s[1..][k - 1..] == s[k..];
      ContainsSuffix(s[1..], t, k - 1);
    }
  }

  /** Python's `s.split(c)` for a one-character separator: the pieces between
      the separators, empty pieces kept, never an empty list. */
  function Split(s: string, c: char): (parts: seq<string>)
    ensures |parts| >= 1
    ensures forall i :: 0 <= i < |parts| ==> c !in parts[i]
    decreases |s|
  {
    if |s| == 0 then [""]
    else
      var rest := Split(s[1..], c);
      if s[0] == c then [""] + rest
      else [[s[0]] + rest[0]] + rest[1..]
  }

  /** Python's `sep.join(parts)` for a one-character separator. */
  function Join(parts: seq<string>, c: char): string
    decreases |parts|
  {
    if |parts| == 0 then ""
    else if |parts| == 1 then parts[0]
    else parts[0] + [c] + Join(parts[1..], c)
  }

  /** Joining the pieces of a split gives the text back. */
  lemma {:induction false} JoinSplit(s: string, c: char)
    ensures Join(Split(s, c), c) == s
    decreases |s|
  {
    if |s| > 0 {
      var rest := Split(s[1..], c);
      JoinSplit(s[1..], c);
      if s[0] == c {
        assert Split(s, c) == [""] + rest;
        assert ([""] + rest)[1..] == rest;
      } else {
        var parts := Split(s, c);
        assert parts == [[s[0]] + rest[0]] + rest[1..];
        if |rest| > 1 {
          assert parts[1..] == rest[1..];
          assert Join(rest, c) == rest[0] + [c] + Join(rest[1..], c);
        }
      }
    }
  }

  lemma {:induction false} SplitNoSeparator(w: string, c: char)
    requires c !in w
    ensures Split(w, c) == [w]
    decreases |w|
  {
    if |w| > 0 {
      SplitNoSeparator(w[1..], c);
      assert [w[0]] + w[1..] == w;
    }
  }

  lemma {:induction false} SplitAfterPiece(w: string, c: char, rest: string)
    requires c !in w
    ensures Split(w + [c] + rest, c) == [w] + Split(rest, c)
    decreases |w|
  {
    var s := w + [c] + rest;
    if |w| == 0 {
      assert s[1..] == rest;
    } else {
      assert s[1..] == w[1..] + [c] + rest;
      SplitAfterPiece(w[1..], c, rest);
      assert [w[0]] + w[1..] == w;
    }
  }

  /** Splitting a join of separator-free pieces gives the pieces back. */
  lemma {:induction false} SplitJoin(parts: seq<string>, c: char)
    requires |parts| >= 1
    requires forall i :: 0 <= i < |parts| ==> c !in parts[i]
    ensures Split(Join(parts, c), c) == parts
    decreases |parts|
  {
    if |parts| == 1 {
      SplitNoSeparator(parts[0], c);
    } else {
      SplitJoin(parts[1..], c);
      SplitAfterPiece(parts[0], c, Join(parts[1..], c));
      assert [parts[0]] + parts[1..] == parts;
    }
  }

  /** Python's `s.replace(pat, rep)`: every non-overlapping occurrence of
      `pat`, scanning left to right, is replaced by `rep`. */
  function ReplaceAll(s: string, pat: string, rep: string): (r: string)
    requires |pat| > 0
    decreases |s|
  {
    if |s| < |pat| then s
    else if s[..|pat|] == pat then rep + ReplaceAll(s[|pat|..], pat, rep)
    else [s[0]] + ReplaceAll(s[1..], pat, rep)
  }

  /** Where no occurrence starts at the head, `replace` keeps the first character. */
  lemma ReplaceAllKeepsHead(s: string, pat: string, rep: string)
    requires |pat| > 0 && |s| > 0 && !StartsWith(s, pat)
    ensures ReplaceAll(s, pat, rep) == [s[0]] + ReplaceAll(s[1..], pat, rep)
  {
    if |s| < |pat| {
      assert [s[0]] + s[1..] == s;
    }
  }

  /** Text without an occurrence of the pattern comes back unchanged. */
  lemma {:induction false} ReplaceAllAbsent(s: string, pat: string, rep: string)
    requires |pat| > 0 && !Contains(s, pat)
    ensures ReplaceAll(s, pat, rep) == s
    decreases |s|
  {
    if |s| >= |pat| {
      ReplaceAllAbsent(s[1..], pat, rep);
      assert [s[0]] + s[1..] == s;
    }
  }

  /** The rendering step of the report: Python's `s.replace("\n", "<br/>")`. */
  function Br(s: string): (r: string)
    ensures '\n' !in r
    decreases |s|
  {
    if |s| == 0 then ""
    else (if s[0] == '\n' then "<br/>" else [s[0]]) + Br(s[1..])
  }

  /** `Br` is exactly the replace the source calls. */
  lemma {:induction false} BrIsReplace(s: string)
    ensures Br(s) == ReplaceAll(s, "\n", "<br/>")
    decreases |s|
  {
    if |s| > 0 {
      BrIsReplace(s[1..]);
      assert s[..1] == [s[0]];
    }
  }

  /** The inverse rendering: every "<br/>" back to a line break. */
  function Unbr(s: string): string {
    ReplaceAll(s, "<br/>", "\n")
  }

  lemma {:induction false} BrKeepsPrefix(s: string, w: string)
    requires '<' !in w && StartsWith(Br(s), w)
    ensures StartsWith(s, w)
    decreases |w|
  {
    if |w| > 0 {
      assert |s| > 0;
      assert Br(s)[0] == w[0];
      assert s[0] != '\n';
      assert Br(s) == [s[0]] + Br(s[1..]);
      assert StartsWith(Br(s[1..]), w[1..]) by {
        assert Br(s)[1..] == Br(s[1..]);
      }
      BrKeepsPrefix(s[1..], w[1..]);
      assert s[..|w|] == [s[0]] + s[1..][..|w| - 1];
      assert w == [w[0]] + w[1..];
    }
  }

  /** A "<br/>" at the head of the rendering that is not a rendered line
      break was already there in the text. */
  lemma BrHead(s: string)
    requires |s| > 0 && s[0] != '\n' && StartsWith(Br(s), "<br/>")
    ensures StartsWith(s, "<br/>")
  {
    var b := Br(s);
    var tail := Br(s[1..]);
    assert b == [s[0]] + tail;
    assert b[0] == b[..5][0] == '<';
    assert StartsWith(tail, "br/>") by {
      assert b[1..] == tail;
      assert b[1..][..4] == b[..5][1..];
    }
    BrKeepsPrefix(s[1..], "br/>");
    assert s[..5] == [s[0]] + s[1..][..4];
  }

  /** Rendering line breaks as "<br/>" loses nothing when the text did not
      already hold a "<br/>" of its own. */
  lemma {:induction false} UnbrBr(s: string)
    requires !Contains(s, "<br/>")
    ensures Unbr(Br(s)) == s
    decreases |s|
  {
    if |s| > 0 {
      assert !Contains(s[1..], "<br/>");
      UnbrBr(s[1..]);
      var tail := Br(s[1..]);
      if s[0] == '\n' {
        var b := "<br/>" + tail;
        assert Br(s) == b;
        assert b[..5] == "<br/>";
        assert b[5..] == tail;
      } else {
        var b := [s[0]] + tail;
        assert Br(s) == b;
        if StartsWith(b, "<br/>") {
          BrHead(s);
        }
        ReplaceAllKeepsHead(b, "<br/>", "\n");
        assert b[1..] == tail;
        assert [s[0]] + s[1..] == s;
      }
    }
  }

  predicate IsDigit(ch: char) {
    '0' <= ch <= '9'
  }

  /** Every character is an ASCII decimal digit. */
  predicate AllDigits(s: string) {
    forall i :: 0 <= i < |s| ==> IsDigit(s[i])
  }

  /** A non-empty run of ASCII decimal digits. */
  predicate IsDecimal(s: string) {
    |s| > 0 && AllDigits(s)
  }

  function DigitValue(ch: char): nat
    requires IsDigit(ch)
  {
    (ch as int - '0' as int) as nat
  }

  /** The number a run of digits denotes, read most significant digit first. */
  function DigitsValue(s: string): nat
    requires AllDigits(s)
    decreases |s|
  {
    if |s| == 0 then 0
    else DigitsValue(s[..|s| - 1]) * 10 + DigitValue(s[|s| - 1])
  }

  /** Python's `int(s)` for an optional sign followed by decimal digits;
      `None` is the ValueError Python raises for anything else. */
  function ParseInt(s: string): Option<int> {
    if |s| > 0 && (s[0] == '-' || s[0] == '+') then
      if IsDecimal(s[1..]) then
        var magnitude: int := DigitsValue(s[1..]);
        Some(if s[0] == '-' then -magnitude else magnitude)
      else None
    else if IsDecimal(s) then Some(DigitsValue(s))
    else None
  }

  function DigitChar(d: nat): char
    requires d < 10
  {
    ('0' as int + d) as char
  }

  /** Python's `str(n)` for a whole number. */
  function NatToString(n: nat): (s: string)
    ensures IsDecimal(s)
    decreases n
  {
    if n < 10 then [DigitChar(n)]
    else NatToString(n / 10) + [DigitChar(n % 10)]
  }

  /** `int(str(n)) == n`. */
  lemma {:induction false} ParseNatToString(n: nat)
    ensures ParseInt(NatToString(n)) == Some(n)
  {
    DigitsOfNatToString(n);
  }

  lemma {:induction false} DigitsOfNatToString(n: nat)
    ensures DigitsValue(NatToString(n)) == n
    decreases n
  {
    var s := NatToString(n);
    if n >= 10 {
      DigitsOfNatToString(n / 10);
      assert s[..|s| - 1] == NatToString(n / 10);
    }
  }

  /** Python's `str(i)` for any whole number. */
  function IntToString(i: int): (s: string)
    ensures |s| > 0
  {
    if i < 0 then "-" + NatToString(-i) else NatToString(i)
  }

  /** `int(str(i)) == i`. */
  lemma IntToStringRoundTrip(i: int)
    ensures ParseInt(IntToString(i)) == Some(i)
  {
    if i < 0 {
      var s := IntToString(i);
      DigitsOfNatToString(-i);
      assert s[1..] == NatToString(-i);
    } else {
      ParseNatToString(i);
    }
  }

  /** The last piece of `s.split(c)` (Python's `s.split(c)[-1]`). */
  function LastPiece(s: string, c: char): (p: string)
    ensures c !in p
  {
    var parts := Split(s, c);
    parts[|parts| - 1]
  }
}
