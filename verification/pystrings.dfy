/**
 The two Python string builtins the core relies on: `str` applied to an
 `int`, and `sep.join(items)`. The first is checked against a reader of the
 digits it writes (`ParseInt`), the second against `s.split(c)`.
 */
module PyStrings {
  import opened Wrappers

  predicate IsDigit(c: char) {
    '0' <= c <= '9'
  }

  predicate IsDecimal(s: string) {
    0 < |s| && forall i :: 0 <= i < |s| ==> IsDigit(s[i])
  }

  function DigitChar(d: nat): (c: char)
    requires d < 10
    ensures IsDigit(c)
  {
    ('0' as int + d) as char
  }

  function DigitValue(c: char): (d: nat)
    requires IsDigit(c)
    ensures d < 10
    ensures DigitChar(d) == c
  {
    c as int - '0' as int
  }

  /** Decimal spelling of a natural number: most significant digit first, no leading zero. */
  function NatToDecimal(n: nat): (s: string)
    ensures IsDecimal(s)
    ensures (s[0] == '0') == (n == 0)
    ensures n == 0 ==> s == "0"
    decreases n
  {
    if n < 10 then [DigitChar(n)] else NatToDecimal(n / 10) + [DigitChar(n % 10)]
  }

  /** The value of a string of decimal digits (the empty string reads as zero). */
  function DecimalToNat(s: string): nat
    requires forall i :: 0 <= i < |s| ==> IsDigit(s[i])
    decreases |s|
  {
    if |s| == 0 then 0 else DecimalToNat(s[..|s| - 1]) * 10 + DigitValue(s[|s| - 1])
  }

  lemma {:induction false} DecimalRoundTrip(n: nat)
    ensures DecimalToNat(NatToDecimal(n)) == n
    decreases n
  {
    if n >= 10 {
      var s := NatToDecimal(n);
      assert s[..|s| - 1] == NatToDecimal(n / 10);
      DecimalRoundTrip(n / 10);
    }
  }

  /** Python's `str(n)` for an `int` n: a '-' sign for negatives, then the decimal digits. */
  function IntToStr(n: int): (s: string)
    ensures 0 < |s|
    ensures (s[0] == '-') == (n < 0)
    ensures n < 0 ==> s[1..] == NatToDecimal(-n)
    ensures 0 <= n ==> s == NatToDecimal(n)
  {
    if n < 0 then "-" + NatToDecimal(-n) else NatToDecimal(n)
  }

  /** Reads back what `IntToStr` writes: an optional '-' followed by at least one digit. */
  function ParseInt(s: string): Option<int> {
    if 0 < |s| && s[0] == '-' then
      if IsDecimal(s[1..]) then
        var magnitude: int := DecimalToNat(s[1..]);
        Some(-magnitude)
      else None
    else if IsDecimal(s) then Some(DecimalToNat(s))
    else None
  }

  lemma IntToStrRoundTrip(n: int)
    ensures ParseInt(IntToStr(n)) == Some(n)
  {
    if n < 0 {
      var s := IntToStr(n);
      assert s[1..] == NatToDecimal(-n);
      DecimalRoundTrip(-n);
    } else {
      DecimalRoundTrip(n);
    }
  }

  /** Where item `i` starts in `sep.join(items)`: after the items before it, each followed by `sep`. */
  function Offset(sep: string, items: seq<string>, i: nat): nat
    requires i <= |items|
  {
    if i == 0 then 0 else |items[0]| + |sep| + Offset(sep, items[1..], i - 1)
  }

  /** Item `i` of `items` occupies the text of `r` from `Offset(sep, items, i)` on. */
  predicate ItemsPlaced(sep: string, items: seq<string>, r: string) {
    forall i :: 0 <= i < |items| ==>
      && Offset(sep, items, i) + |items[i]| <= |r|
      && r[Offset(sep, items, i)..Offset(sep, items, i) + |items[i]|] == items[i]
  }

  /** Every item of `items` but the last is followed in `r` by exactly `sep`. */
  predicate SeparatorsPlaced(sep: string, items: seq<string>, r: string) {
    forall i :: 0 <= i < |items| - 1 ==>
      && Offset(sep, items, i) + |items[i]| + |sep| <= |r|
      && r[Offset(sep, items, i) + |items[i]|..Offset(sep, items, i) + |items[i]| + |sep|] == sep
  }

  /**
   `r` lays out `items` joined by `sep`: each item at its offset, exactly `sep`
   between consecutive items, and nothing after the last item.
   */
  predicate IsJoinLayout(sep: string, items: seq<string>, r: string)
    requires 0 < |items|
  {
    && |r| == Offset(sep, items, |items| - 1) + |items[|items| - 1]|
    && ItemsPlaced(sep, items, r)
    && SeparatorsPlaced(sep, items, r)
  }

  /** Past the first item, offsets in `items` are those in `items[1..]` moved right by the first item and a separator. */
  lemma OffsetShift(sep: string, items: seq<string>, i: nat)
    requires 0 < i <= |items|
    ensures Offset(sep, items, i) == |items[0]| + |sep| + Offset(sep, items[1..], i - 1)
  {}

  lemma ItemsPlacedCons(sep: string, items: seq<string>, rest: string)
    requires 1 < |items|
    requires ItemsPlaced(sep, items[1..], rest)
    ensures ItemsPlaced(sep, items, items[0] + sep + rest)
  {
    var r := items[0] + sep + rest;
    var shift := |items[0]| + |sep|;
    forall i | 0 < i < |items|
      ensures Offset(sep, items, i) + |items[i]| <= |r|
      ensures r[Offset(sep, items, i)..Offset(sep, items, i) + |items[i]|] == items[i]
    {
      OffsetShift(sep, items, i);
      var o := Offset(sep, items[1..], i - 1);
      assert items[1..][i - 1] == items[i];
      assert r[shift + o..shift + o + |items[i]|] == rest[o..o + |items[i]|];
    }
    assert r[0..|items[0]|] == items[0];
  }

  lemma SeparatorsPlacedCons(sep: string, items: seq<string>, rest: string)
    requires 1 < |items|
    requires SeparatorsPlaced(sep, items[1..], rest)
    ensures SeparatorsPlaced(sep, items, items[0] + sep + rest)
  {
    var r := items[0] + sep + rest;
    var shift := |items[0]| + |sep|;
    forall i | 0 < i < |items| - 1
      ensures Offset(sep, items, i) + |items[i]| + |sep| <= |r|
      ensures r[Offset(sep, items, i) + |items[i]|..Offset(sep, items, i) + |items[i]| + |sep|] == sep
    {
      OffsetShift(sep, items, i);
      var o := Offset(sep, items[1..], i - 1);
      assert items[1..][i - 1] == items[i];
      assert r[shift + o + |items[i]|..shift + o + |items[i]| + |sep|]
          == rest[o + |items[i]|..o + |items[i]| + |sep|];
    }
    assert r[|items[0]|..|items[0]| + |sep|] == sep;
  }

  /** Putting one more item and a separator in front of a layout gives the layout of the longer list. */
  lemma JoinLayoutCons(sep: string, items: seq<string>, rest: string)
    requires 1 < |items|
    requires IsJoinLayout(sep, items[1..], rest)
    ensures IsJoinLayout(sep, items, items[0] + sep + rest)
  {
    ItemsPlacedCons(sep, items, rest);
    SeparatorsPlacedCons(sep, items, rest);
    OffsetShift(sep, items, |items| - 1);
    assert items[1..][|items| - 2] == items[|items| - 1];
  }

  /** Joining one item in front of a non-empty list. */
  lemma JoinCons(sep: string, first: string, tail: seq<string>)
    requires 0 < |tail|
    ensures Join(sep, [first] + tail) == first + sep + Join(sep, tail)
  {
    assert ([first] + tail)[1..] == tail;
  }

  /** Python's `sep.join(items)`. */
  function Join(sep: string, items: seq<string>): (r: string)
    ensures |items| == 0 ==> r == ""
    ensures 0 < |items| ==> IsJoinLayout(sep, items, r)
  {
    if |items| == 0 then ""
    else if |items| == 1 then items[0]
    else
      var rest := Join(sep, items[1..]);
      JoinLayoutCons(sep, items, rest);
      items[0] + sep + rest
  }

  /** Position of the first occurrence of `c` in `s`. */
  function IndexOf(s: string, c: char): (i: nat)
    requires c in s
    ensures i < |s| && s[i] == c
    ensures c !in s[..i]
  {
    if s[0] == c then 0
    else
      var j := IndexOf(s[1..], c);
      assert s[..j + 1] == [s[0]] + s[1..][..j];
      j + 1
  }

  /** Python's `s.split(c)` for a one-character separator. */
  function Split(s: string, c: char): (parts: seq<string>)
    ensures 0 < |parts|
    ensures forall i :: 0 <= i < |parts| ==> c !in parts[i]
    decreases |s|
  {
    if c !in s then [s]
    else
      var i := IndexOf(s, c);
      [s[..i]] + Split(s[i + 1..], c)
  }

  /** In `x + [c] + rest` with `c` not in `x`, the first `c` is the one after `x`. */
  lemma IndexOfAfterPrefix(x: string, c: char, rest: string)
    requires c !in x
    ensures c in x + [c] + rest
    ensures IndexOf(x + [c] + rest, c) == |x|
  {
    var s := x + [c] + rest;
    assert s[|x|] == c;
    var i := IndexOf(s, c);
  }

  /** Splitting text that starts with a separator-free piece and a separator peels that piece off. */
  lemma SplitCons(x: string, c: char, rest: string)
    requires c !in x
    ensures Split(x + [c] + rest, c) == [x] + Split(rest, c)
  {
    var s := x + [c] + rest;
    IndexOfAfterPrefix(x, c, rest);
    assert s[..|x|] == x;
    assert s[|x| + 1..] == rest;
  }

  /** Joining with a separator character that no item contains, then splitting on it, gives the items back. */
  lemma {:induction false} SplitJoin(items: seq<string>, c: char)
    requires 0 < |items|
    requires forall i :: 0 <= i < |items| ==> c !in items[i]
    ensures Split(Join([c], items), c) == items
  {
    if |items| > 1 {
      var x := items[0];
      assert items == [x] + items[1..];
      JoinCons([c], x, items[1..]);
      SplitCons(x, c, Join([c], items[1..]));
      SplitJoin(items[1..], c);
    }
  }

  /** Splitting on a character and joining the parts with it restores the string. */
  lemma {:induction false} JoinSplit(s: string, c: char)
    ensures Join([c], Split(s, c)) == s
    decreases |s|
  {
    if c in s {
      var i := IndexOf(s, c);
      var tail := Split(s[i + 1..], c);
      assert Split(s, c) == [s[..i]] + tail;
      assert s[..i] + [c] + s[i + 1..] == s;
      JoinCons([c], s[..i], tail);
      JoinSplit(s[i + 1..], c);
    }
  }
}
