/**
 * The string operations the scripts rely on from Python: `str()` of an int,
 * the substring test `sub in s`, and `sep.join(parts)`. Each comes with the
 * inverse or the declarative definition that pins down what it computes.
 */
module Text {
  import opened Wrappers

  predicate IsDigit(c: char) {
    '0' <= c <= '9'
  }

  predicate AllDigits(s: string) {
    forall i :: 0 <= i < |s| ==> IsDigit(s[i])
  }

  function DigitChar(d: nat): (c: char)
    requires d < 10
    ensures IsDigit(c) && DigitValue(c) == d
  {
    (('0' as int) + d) as char
  }

  function DigitValue(c: char): nat
    requires IsDigit(c)
  {
    (c as int) - ('0' as int)
  }

  /** The decimal digits of `n`, most significant first, without leading zeros. */
  function NatToDecimal(n: nat): (s: string)
    ensures |s| > 0 && AllDigits(s)
    ensures s[0] == '0' ==> n == 0
    decreases n
  {
    if n < 10 then [DigitChar(n)] else NatToDecimal(n / 10) + [DigitChar(n % 10)]
  }

  /** The number a string of decimal digits denotes. */
  function DecimalValue(s: string): nat
    requires AllDigits(s)
  {
    if s == [] then 0 else DecimalValue(s[..|s| - 1]) * 10 + DigitValue(s[|s| - 1])
  }

  lemma {:induction false} DecimalRoundTrip(n: nat)
    ensures DecimalValue(NatToDecimal(n)) == n
    decreases n
  {
    if n >= 10 {
      var s := NatToDecimal(n);
      assert s[..|s| - 1] == NatToDecimal(n / 10);
      DecimalRoundTrip(n / 10);
    }
  }

  /** Python's `str(i)` for an int: an optional minus sign, then the digits of `|i|`. */
  function IntToString(i: int): (s: string)
  {
    if i < 0 then "-" + NatToDecimal(-i) else NatToDecimal(i)
  }

  /** Reads back what IntToString writes; None for anything else. */
  function ParseInt(s: string): Option<int>
  {
    if |s| > 1 && s[0] == '-' && AllDigits(s[1..]) then Some(0 - DecimalValue(s[1..]) as int)
    else if |s| > 0 && AllDigits(s) then Some(DecimalValue(s))
    else None
  }

  lemma IntRoundTrip(i: int)
    ensures ParseInt(IntToString(i)) == Some(i)
  {
    if i < 0 {
      var d := NatToDecimal(-i);
      var s := "-" + d;
      assert s == IntToString(i);
      assert s[0] == '-' && s[1..] == d && |s| > 1;
      DecimalRoundTrip(-i);
    } else {
      var d := NatToDecimal(i);
      assert IsDigit(d[0]) && d[0] != '-';
      DecimalRoundTrip(i);
    }
  }

  /** The length of the run of digits that starts `s`. */
  function DigitRun(s: string): (n: nat)
    ensures n <= |s| && AllDigits(s[..n])
    ensures n < |s| ==> !IsDigit(s[n])
  {
    if s == [] || !IsDigit(s[0]) then 0
    else
      var n := 1 + DigitRun(s[1..]);
      assert s[..n] == [s[0]] + s[1..][..n - 1];
      n
  }

  lemma {:induction false} DigitRunStopsAfterDigits(d: string, t: string)
    requires AllDigits(d)
    requires t == [] || !IsDigit(t[0])
    ensures DigitRun(d + t) == |d|
  {
    if d != [] {
      assert (d + t)[1..] == d[1..] + t;
      DigitRunStopsAfterDigits(d[1..], t);
    }
  }

  /** `sub` is the slice of `s` that starts at position `i`. */
  predicate OccursAt(s: string, sub: string, i: int) {
    0 <= i <= |s| - |sub| && s[i..i + |sub|] == sub
  }

  /** Python's `sub in s` on strings: `sub` occurs somewhere in `s` as a contiguous slice. */
  function Contains(s: string, sub: string): (b: bool)
    ensures b <==> exists i :: OccursAt(s, sub, i)
    decreases |s|
  {
    if |sub| > |s| then false
    else if s[..|sub|] == sub then
      assert OccursAt(s, sub, 0);
      true
    else
      var b := Contains(s[1..], sub);
      assert forall i :: OccursAt(s, sub, i + 1) <==> OccursAt(s[1..], sub, i);
      assert !OccursAt(s, sub, 0);
      assert forall i :: OccursAt(s, sub, i) ==> OccursAt(s[1..], sub, i - 1);
      b
  }

  /** Python's `sep.join(parts)`. */
  function Join(parts: seq<string>, sep: string): (s: string)
    ensures parts == [] ==> s == ""
    ensures |parts| == 1 ==> s == parts[0]
  {
    if |parts| == 0 then ""
    else if |parts| == 1 then parts[0]
    else parts[0] + sep + Join(parts[1..], sep)
  }

  /** Splits at every ", " — the inverse of joining comma-free tags with ", ". */
  function SplitTags(s: string): (parts: seq<string>)
    ensures |parts| > 0
    decreases |s|
  {
    if |s| == 0 then [""]
    else if |s| >= 2 && s[0] == ',' && s[1] == ' ' then [""] + SplitTags(s[2..])
    else
      var rest := SplitTags(s[1..]);
      [[s[0]] + rest[0]] + rest[1..]
  }

  /** Reads a "Tags" cell back into the list of tags; the empty cell is the empty list. */
  function ParseTags(s: string): seq<string>
  {
    if s == "" then [] else SplitTags(s)
  }

  lemma {:induction false} SplitTagsSingle(t: string)
    requires ',' !in t
    ensures SplitTags(t) == [t]
    decreases |t|
  {
    if t != "" {
      SplitTagsSingle(t[1..]);
      assert [t[0]] + t[1..] == t;
    }
  }

  lemma {:induction false} SplitTagsHead(t: string, rest: string)
    requires ',' !in t
    ensures SplitTags(t + ", " + rest) == [t] + SplitTags(rest)
    decreases |t|
  {
    var s := t + ", " + rest;
    if t == "" {
      assert s == ", " + rest && s[2..] == rest;
    } else {
      assert s[1..] == t[1..] + ", " + rest;
      SplitTagsHead(t[1..], rest);
      assert [t[0]] + t[1..] == t;
    }
  }

  lemma {:induction false} SplitJoin(tags: seq<string>)
    requires |tags| > 0
    requires forall t :: t in tags ==> ',' !in t
    ensures SplitTags(Join(tags, ", ")) == tags
    decreases |tags|
  {
    if |tags| == 1 {
      SplitTagsSingle(tags[0]);
    } else {
      SplitTagsHead(tags[0], Join(tags[1..], ", "));
      SplitJoin(tags[1..]);
    }
  }

  /**
   * Joining tags with ", " loses nothing when no tag holds a comma: the
   * only ambiguous list is the one holding a single empty tag.
   */
  lemma JoinTagsRoundTrip(tags: seq<string>)
    requires forall t :: t in tags ==> ',' !in t
    requires tags != [""]
    ensures ParseTags(Join(tags, ", ")) == tags
  {
    if tags != [] {
      SplitJoin(tags);
      if |tags| >= 2 {
        assert |Join(tags, ", ")| >= 2;
      }
    }
  }
}
