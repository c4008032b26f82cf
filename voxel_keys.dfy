/**
  The string keys of a voxel mesh: a coordinate is stored under `f"{x},{y},{z}"`
  and read back with `split(',')` followed by `int` on every part
  (core_voxelizer.py:46, core_voxelizer.py:67, block_mapper.py:158).
*/
module VoxelKeys {
  import opened Wrappers

  /** Decimal digit characters. */
  predicate IsDigit(c: char) { '0' <= c <= '9' }

  function DigitValue(c: char): (d: nat)
    requires IsDigit(c)
    ensures d < 10
  {
    c as int - '0' as int
  }

  function DigitChar(d: nat): (c: char)
    requires d < 10
    ensures IsDigit(c) && c as int - '0' as int == d
  {
    ['0', '1', '2', '3', '4', '5', '6', '7', '8', '9'][d]
  }

  /** `str(n)` for a non-negative integer: no sign, no leading zeros. */
  function NatToDecimal(n: nat): (s: string)
    ensures |s| >= 1 && forall i :: 0 <= i < |s| ==> IsDigit(s[i])
    decreases n
  {
    if n < 10 then [DigitChar(n)] else NatToDecimal(n / 10) + [DigitChar(n % 10)]
  }

  /** `str(i)` for any integer: a minus sign in front of the magnitude when negative. */
  function IntToDecimal(i: int): (s: string)
    ensures |s| >= 1
    ensures s[0] == '-' <==> i < 0
    ensures forall k :: 1 <= k < |s| ==> IsDigit(s[k])
  {
    if i < 0 then "-" + NatToDecimal(-i) else NatToDecimal(i)
  }

  /** The value of a non-empty run of decimal digits, most significant first. */
  function DigitsValue(s: string): nat
    requires forall i :: 0 <= i < |s| ==> IsDigit(s[i])
    decreases |s|
  {
    if |s| == 0 then 0
    else DigitsValue(s[..|s| - 1]) * 10 + DigitValue(s[|s| - 1])
  }

  predicate AllDigits(s: string) { |s| >= 1 && forall i :: 0 <= i < |s| ==> IsDigit(s[i]) }

  /** Python's `int(s)` on an optional sign followed by ASCII digits; anything else raises (None). */
  function ParseInt(s: string): (r: Option<int>)
    ensures r.Some? ==> |s| >= 1 && ',' !in s
    ensures r.Some? && r.value < 0 ==> s[0] == '-'
    ensures AllDigits(s) ==> r == Some(DigitsValue(s) as int)
  {
    if |s| >= 1 && s[0] == '-' && AllDigits(s[1..]) then Some(0 - DigitsValue(s[1..]))
    else if |s| >= 1 && s[0] == '+' && AllDigits(s[1..]) then Some(DigitsValue(s[1..]))
    else if AllDigits(s) then Some(DigitsValue(s))
    else None
  }

  /** Python's `s.split(',')`: the pieces between commas, always at least one. */
  function Split(s: string): (parts: seq<string>)
    ensures |parts| >= 1
    decreases |s|
  {
    if |s| == 0 then [""]
    else
      var rest := Split(s[1..]);
      if s[0] == ',' then [""] + rest else [[s[0]] + rest[0]] + rest[1..]
  }

  /** `[int(c) for c in parts]`: succeeds exactly when every part parses. */
  function ParseAll(parts: seq<string>): (r: Option<seq<int>>)
    ensures r.Some? <==> forall i :: 0 <= i < |parts| ==> ParseInt(parts[i]).Some?
    ensures r.Some? ==> |r.value| == |parts|
    ensures r.Some? ==> forall i :: 0 <= i < |parts| ==> ParseInt(parts[i]) == Some(r.value[i])
  {
    if |parts| == 0 then Some([])
    else if ParseInt(parts[0]).None? then None
    else
      var rest := ParseAll(parts[1..]);
      if rest.None? then None else Some([ParseInt(parts[0]).value] + rest.value)
  }

  /** The key under which the voxel at (x, y, z) is stored. */
  function FormatKey(x: int, y: int, z: int): (key: string)
    ensures Split(key) == [IntToDecimal(x), IntToDecimal(y), IntToDecimal(z)]
  {
    var sx, sy, sz := IntToDecimal(x), IntToDecimal(y), IntToDecimal(z);
    IntToDecimalHasNoComma(x);
    IntToDecimalHasNoComma(y);
    IntToDecimalHasNoComma(z);
    SplitAtComma(sx, sy + "," + sz);
    SplitAtComma(sy, sz);
    SplitNoComma(sz);
    assert sx + "," + sy + "," + sz == sx + "," + (sy + "," + sz);
    sx + "," + sy + "," + sz
  }

  /** Reading a key back: `[int(c) for c in key.split(',')]`. */
  function ParseKey(key: string): (r: Option<seq<int>>)
    ensures r.Some? ==> |r.value| >= 1
    ensures ',' !in key ==> (r.Some? <==> ParseInt(key).Some?)
    ensures ',' !in key && r.Some? ==> r.value == [ParseInt(key).value]
  {
    SplitNoCommaWhenAbsent(key);
    ParseAll(Split(key))
  }

  lemma {:induction false} NatToDecimalValue(n: nat)
    ensures DigitsValue(NatToDecimal(n)) == n
    decreases n
  {
    var s := NatToDecimal(n);
    if n >= 10 {
      NatToDecimalValue(n / 10);
      assert s[..|s| - 1] == NatToDecimal(n / 10);
    }
  }

  lemma ParseDigits(m: string)
    requires AllDigits(m)
    ensures ParseInt(m) == Some(DigitsValue(m) as int)
    ensures ParseInt("-" + m) == Some(0 - DigitsValue(m))
  {
    assert IsDigit(m[0]);
    var t := "-" + m;
    assert t[0] == '-' && t[1..] == m;
  }

  lemma IntToDecimalParses(i: int)
    ensures ParseInt(IntToDecimal(i)) == Some(i)
  {
    var m := NatToDecimal(if i < 0 then -i else i);
    ParseDigits(m);
    NatToDecimalValue(if i < 0 then -i else i);
  }

  lemma IntToDecimalHasNoComma(i: int)
    ensures ',' !in IntToDecimal(i)
  {
    var s := IntToDecimal(i);
    if i < 0 {
      assert s == "-" + NatToDecimal(-i);
      assert forall k :: 1 <= k < |s| ==> s[k] == NatToDecimal(-i)[k - 1];
    }
  }

  lemma {:induction false} SplitNoComma(a: string)
    requires ',' !in a
    ensures Split(a) == [a]
    decreases |a|
  {
    if |a| > 0 {
      SplitNoComma(a[1..]);
      assert [a[0]] + a[1..] == a;
    }
  }

  lemma SplitNoCommaWhenAbsent(a: string)
    ensures ',' !in a ==> Split(a) == [a]
  {
    if ',' !in a {
      SplitNoComma(a);
    }
  }

  lemma {:induction false} SplitAtComma(a: string, b: string)
    requires ',' !in a
    ensures Split(a + "," + b) == [a] + Split(b)
    decreases |a|
  {
    var s := a + "," + b;
    if |a| == 0 {
      assert s[1..] == b;
    } else {
      assert s[1..] == a[1..] + "," + b;
      SplitAtComma(a[1..], b);
      assert [a[0]] + a[1..] == a;
    }
  }

  /** Key round trip: parsing a formatted key gives the three coordinates back, negatives included. */
  lemma KeyRoundTrip(x: int, y: int, z: int)
    ensures ParseKey(FormatKey(x, y, z)) == Some([x, y, z])
  {
    var sx, sy, sz := IntToDecimal(x), IntToDecimal(y), IntToDecimal(z);
    assert Split(FormatKey(x, y, z)) == [sx, sy, sz];
    IntToDecimalParses(x);
    IntToDecimalParses(y);
    IntToDecimalParses(z);
    ParseAllCons(sz, [], z, []);
    assert [sz] + [] == [sz] && [z] + [] == [z];
    ParseAllCons(sy, [sz], y, [z]);
    assert [sy] + [sz] == [sy, sz] && [y] + [z] == [y, z];
    ParseAllCons(sx, [sy, sz], x, [y, z]);
    assert [sx] + [sy, sz] == [sx, sy, sz] && [x] + [y, z] == [x, y, z];
  }

  lemma ParseAllCons(part: string, rest: seq<string>, v: int, vs: seq<int>)
    requires ParseInt(part) == Some(v) && ParseAll(rest) == Some(vs)
    ensures ParseAll([part] + rest) == Some([v] + vs)
  {
    assert ([part] + rest)[1..] == rest;
  }

  /** Distinct coordinates never share a key. */
  lemma FormatKeyInjective(x: int, y: int, z: int, x': int, y': int, z': int)
    requires FormatKey(x, y, z) == FormatKey(x', y', z')
    ensures x == x' && y == y' && z == z'
  {
    KeyRoundTrip(x, y, z);
    KeyRoundTrip(x', y', z');
  }
}
