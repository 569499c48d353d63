/** The JavaScript values and built-in operations that the components rely on:
    truthiness, `Number(...)`, `parseInt(..., 10)`, printing an integer,
    `String.prototype.trim` and `Array.prototype.filter`. */
module JsCore {

  datatype Option<T> = None | Some(value: T)

  /** The kinds of JavaScript value the components read, store and compare.
      Numbers are unbounded integers: no modelled component computes with
      fractions, and the double-precision limits (exponent-form printing from
      `1e21`, rounding above 2^53) are not modelled. */
  datatype JsValue = Undefined | Null | Bool(b: bool) | Num(n: int) | NaN | Str(s: string)

  /** JavaScript truthiness: `false`, `0`, `NaN`, `""`, `null` and `undefined` are falsy. */
  predicate Truthy(v: JsValue) {
    match v
    case Bool(b) => b
    case Num(n) => n != 0
    case Str(s) => s != ""
    case _ => false
  }

  // ---------------------------------------------------------------------------
  // Decimal digits, printing and parsing integers

  predicate IsDigit(c: char) { '0' <= c <= '9' }

  predicate AllDigits(s: string) { forall i :: 0 <= i < |s| ==> IsDigit(s[i]) }

  function DigitValue(c: char): (d: nat)
    requires IsDigit(c)
    ensures d < 10
  {
    c as int - '0' as int
  }

  function DigitChar(d: nat): (c: char)
    requires d < 10
    ensures IsDigit(c) && DigitValue(c) == d
  {
    ('0' as int + d) as char
  }

  /** The decimal numeral of `n`, most significant digit first, as `n.toString()` prints it. */
  function NatToString(n: nat): (s: string)
    ensures |s| > 0 && AllDigits(s)
    decreases n
  {
    if n < 10 then [DigitChar(n)] else NatToString(n / 10) + [DigitChar(n % 10)]
  }

  /** `n.toString()` for an integer: a minus sign before the numeral of `|n|` when negative. */
  function IntToString(n: int): (s: string)
    ensures |s| > 0
    ensures n >= 0 ==> AllDigits(s)
    ensures n < 0 ==> s[0] == '-' && AllDigits(s[1..])
  {
    if n < 0 then "-" + NatToString(-n) else NatToString(n)
  }

  /** The number a string of decimal digits denotes. */
  function DigitsValue(s: string): nat
    requires AllDigits(s)
  {
    if s == [] then 0 else DigitsValue(s[..|s| - 1]) * 10 + DigitValue(s[|s| - 1])
  }

  /** Reading back a printed numeral gives the number printed. */
  lemma {:induction false} DigitsValueOfNatToString(n: nat)
    ensures DigitsValue(NatToString(n)) == n
    decreases n
  {
    if n >= 10 {
      var s := NatToString(n);
      assert s[..|s| - 1] == NatToString(n / 10);
      DigitsValueOfNatToString(n / 10);
    }
  }

  /** Length of the longest prefix of `s` made of decimal digits. */
  function LeadingDigits(s: string): (k: nat)
    ensures k <= |s|
    ensures forall i :: 0 <= i < k ==> IsDigit(s[i])
    ensures k < |s| ==> !IsDigit(s[k])
  {
    if s == [] || !IsDigit(s[0]) then 0 else 1 + LeadingDigits(s[1..])
  }

  /** A string of digits is its own longest digit prefix. */
  lemma {:induction false} LeadingDigitsOfNumeral(s: string)
    requires AllDigits(s)
    ensures LeadingDigits(s) == |s|
  {
    if s != [] {
      LeadingDigitsOfNumeral(s[1..]);
    }
  }

  /** Strips one leading sign character, as `parseInt` and `Number` do. */
  function Unsigned(s: string): string {
    if |s| > 0 && (s[0] == '-' || s[0] == '+') then s[1..] else s
  }

  /** `parseInt(s, 10)`: an optional sign, then the longest run of decimal digits
      that follows it; `NaN` when no digit follows. Leading white space, which
      `parseInt` would skip, is not modelled. */
  function ParseInt(s: string): (r: JsValue)
    ensures r.Num? || r.NaN?
    ensures r.NaN? <==> (Unsigned(s) == [] || !IsDigit(Unsigned(s)[0]))
  {
    var body := Unsigned(s);
    var k := LeadingDigits(body);
    if k == 0 then NaN
    else
      var v := DigitsValue(body[..k]);
      Num(if |s| > 0 && s[0] == '-' then -(v as int) else v)
  }

  /** `parseInt` reads back every integer that `toString` prints. */
  lemma ParseIntOfIntToString(n: int)
    ensures ParseInt(IntToString(n)) == Num(n)
  {
    var s := IntToString(n);
    var m: nat := if n < 0 then -n else n;
    var digits := NatToString(m);
    assert Unsigned(s) == digits;
    LeadingDigitsOfNumeral(digits);
    assert digits[..|digits|] == digits;
    DigitsValueOfNatToString(m);
  }

  /** A run of digits followed by a non-digit (or nothing) is that run's length. */
  lemma {:induction false} LeadingDigitsOfPrefix(digits: string, rest: string)
    requires AllDigits(digits)
    requires rest == [] || !IsDigit(rest[0])
    ensures LeadingDigits(digits + rest) == |digits|
  {
    if digits != [] {
      assert (digits + rest)[1..] == digits[1..] + rest;
      LeadingDigitsOfPrefix(digits[1..], rest);
    } else {
      assert digits + rest == rest;
    }
  }

  /** `parseInt` of a printed integer followed by text that does not start with
      a digit reads the integer and ignores the rest. */
  lemma ParseIntOfPrefix(n: int, rest: string)
    requires rest == [] || !IsDigit(rest[0])
    ensures ParseInt(IntToString(n) + rest) == Num(n)
  {
    var m: nat := if n < 0 then -n else n;
    var digits := NatToString(m);
    UnsignedOfPrinted(n, rest);
    LeadingDigitsOfPrefix(digits, rest);
    assert (digits + rest)[..|digits|] == digits;
    DigitsValueOfNatToString(m);
  }

  /** Behind the sign of a printed integer come the digits of its magnitude. */
  lemma UnsignedOfPrinted(n: int, rest: string)
    ensures var s := IntToString(n) + rest;
      && Unsigned(s) == NatToString(if n < 0 then -n else n) + rest
      && (|s| > 0 && s[0] == '-' <==> n < 0)
  {
    var s := IntToString(n) + rest;
    if n < 0 {
      var digits := NatToString(-n);
      assert s == "-" + (digits + rest);
    } else {
      var digits := NatToString(n);
      assert s == digits + rest;
      assert IsDigit(s[0]);
    }
  }

  /** `Number(v)`, the conversion behind `isNaN` and `Math.max`. A string converts
      when it is empty (to 0) or an optional sign followed by decimal digits; the
      other numeric syntaxes (`1e3`, `0x1F`, `1.5`, surrounding blanks) are not modelled. */
  function ToNumber(v: JsValue): (r: JsValue)
    ensures r.Num? || r.NaN?
    ensures v.Num? ==> r == v
  {
    match v
    case Undefined => NaN
    case Null => Num(0)
    case Bool(b) => Num(if b then 1 else 0)
    case Num(n) => Num(n)
    case NaN => NaN
    case Str(s) =>
      if s == "" then Num(0)
      else if Unsigned(s) != [] && AllDigits(Unsigned(s)) then ParseInt(s)
      else NaN
  }

  /** The global `isNaN(v)`. */
  predicate IsNaN(v: JsValue) { ToNumber(v).NaN? }

  // ---------------------------------------------------------------------------
  // String.prototype.trim

  /** The white-space and line-terminator characters that `trim` removes
      (the Latin-1 and common Unicode ones). */
  predicate IsBlank(c: char) {
    c == ' ' || c == '\t' || c == '\n' || c == '\r' || c == '\U{000B}' || c == '\U{000C}'
    || c == '\U{00A0}' || c == '\U{2028}' || c == '\U{2029}' || c == '\U{FEFF}'
  }

  predicate AllBlank(s: string) { forall i :: 0 <= i < |s| ==> IsBlank(s[i]) }

  function TrimStart(s: string): (r: string)
    ensures |r| <= |s| && r == s[|s| - |r|..]
    ensures AllBlank(s[..|s| - |r|])
    ensures r != [] ==> !IsBlank(r[0])
  {
    if s != [] && IsBlank(s[0]) then TrimStart(s[1..]) else s
  }

  function TrimEnd(s: string): (r: string)
    ensures |r| <= |s| && r == s[..|r|]
    ensures AllBlank(s[|r|..])
    ensures r != [] ==> !IsBlank(r[|r| - 1])
  {
    if s != [] && IsBlank(s[|s| - 1]) then TrimEnd(s[..|s| - 1]) else s
  }

  /** `r` occurs in `s` starting at position `i`. */
  predicate SliceAt(s: string, i: int, r: string) {
    0 <= i <= |s| - |r| && r == s[i..i + |r|]
  }

  /** `r` sits in `s` at `i`, and everything before and after it is blank. */
  predicate TrimmedAt(s: string, i: int, r: string) {
    SliceAt(s, i, r) && AllBlank(s[..i]) && AllBlank(s[i + |r|..])
  }

  /** A prefix `r` of the suffix `t` of `s` that starts at `i`, with blanks
      before `t` and after `r` in `t`, is trimmed out of `s` at `i`. */
  lemma TrimmedSlice(s: string, i: int, t: string, r: string)
    requires 0 <= i <= |s| && t == s[i..] && |r| <= |t| && r == t[..|r|]
    requires AllBlank(s[..i]) && AllBlank(t[|r|..])
    ensures TrimmedAt(s, i, r)
  {
    assert s[i + |r|..] == t[|r|..];
  }

  /** `s.trim()`: the slice of `s` left after removing blanks at both ends. */
  function Trim(s: string): (r: string)
    ensures exists i :: TrimmedAt(s, i, r)
    ensures r != [] ==> !IsBlank(r[0]) && !IsBlank(r[|r| - 1])
  {
    var t := TrimStart(s);
    var r := TrimEnd(t);
    TrimmedSlice(s, |s| - |t|, t, r);
    r
  }

  /** A trimmed string is empty exactly when the string is all blanks. */
  lemma TrimEmptyIffBlank(s: string)
    ensures Trim(s) == "" <==> AllBlank(s)
  {
    var t := TrimStart(s);
    if Trim(s) == "" {
      assert AllBlank(t) by { assert t[0..] == t; }
      assert s[..|s|] == s;
    }
    if AllBlank(s) {
      assert AllBlank(t);
    }
  }

  /** Trimming an already trimmed string changes nothing. */
  lemma {:induction false} TrimIdempotent(s: string)
    ensures Trim(Trim(s)) == Trim(s)
  {
    var r := Trim(s);
    if r != [] {
      assert TrimStart(r) == r;
      assert TrimEnd(r) == r;
    }
  }

  // ---------------------------------------------------------------------------
  // Array.prototype.filter

  /** `s.filter(p)`: the elements of `s` that satisfy `p`, in their original order. */
  function Filter<T>(s: seq<T>, p: T -> bool): (r: seq<T>)
    ensures |r| <= |s|
    ensures forall x :: x in r ==> x in s && p(x)
  {
    if s == [] then [] else (if p(s[0]) then [s[0]] else []) + Filter(s[1..], p)
  }

  /** Putting position `i` (when `take`) in front of a selection of `s` at
      positions `k` gives the selection at the extended positions. */
  lemma SelectionCons<T>(s: seq<T>, i: nat, f: seq<T>, k: seq<nat>, take: bool)
    requires i < |s|
    requires |f| == |k| && forall j :: 0 <= j < |k| ==> k[j] < |s| && f[j] == s[k[j]]
    ensures var f' := (if take then [s[i]] else []) + f;
      var k' := (if take then [i] else []) + k;
      |f'| == |k'| && forall j :: 0 <= j < |k'| ==> k'[j] < |s| && f'[j] == s[k'[j]]
  {
    if take {
      forall j | 0 <= j < |k| + 1 ensures ([i] + k)[j] < |s| && ([s[i]] + f)[j] == s[([i] + k)[j]] {
        if j > 0 {
          assert ([s[i]] + f)[j] == f[j - 1];
          assert ([i] + k)[j] == k[j - 1];
        }
      }
    } else {
      assert [] + f == f && [] + k == k;
    }
  }

  /** `Array.prototype.some`: whether some element passes the test. */
  function Any<T>(s: seq<T>, p: T -> bool): (r: bool)
    ensures r <==> exists i :: 0 <= i < |s| && p(s[i])
  {
    if s == [] then false
    else
      assert forall i :: 1 <= i < |s| ==> s[i] == s[1..][i - 1];
      p(s[0]) || Any(s[1..], p)
  }

  /** Filtering a concatenation filters each part. */
  lemma {:induction false} FilterAppend<T>(s: seq<T>, t: seq<T>, p: T -> bool)
    ensures Filter(s + t, p) == Filter(s, p) + Filter(t, p)
  {
    if s == [] {
      assert s + t == t;
    } else {
      assert (s + t)[1..] == s[1..] + t;
      FilterAppend(s[1..], t, p);
    }
  }

  /** An element satisfying `p` is kept. */
  lemma {:induction false} FilterKeeps<T>(s: seq<T>, p: T -> bool, i: nat)
    requires i < |s| && p(s[i])
    ensures s[i] in Filter(s, p)
  {
    if i > 0 {
      FilterKeeps(s[1..], p, i - 1);
    }
  }

  /** The filtered sequence is empty exactly when no element satisfies `p`. */
  lemma FilterEmptyIff<T>(s: seq<T>, p: T -> bool)
    ensures Filter(s, p) == [] <==> forall i :: 0 <= i < |s| ==> !p(s[i])
  {
    if Filter(s, p) == [] {
      forall i | 0 <= i < |s| ensures !p(s[i]) {
        if p(s[i]) { FilterKeeps(s, p, i); }
      }
    } else {
      var x := Filter(s, p)[0];
      assert x in Filter(s, p);
      var i :| 0 <= i < |s| && s[i] == x;
    }
  }

  /** When every element satisfies `p`, filtering keeps the whole sequence. */
  lemma {:induction false} FilterAll<T>(s: seq<T>, p: T -> bool)
    requires forall i :: 0 <= i < |s| ==> p(s[i])
    ensures Filter(s, p) == s
  {
    if s != [] {
      FilterAll(s[1..], p);
    }
  }

  /** Positions, from `i` on, of the elements of `s` that satisfy `p`: strictly
      increasing, and holding exactly the positions whose element satisfies `p`. */
  function KeptPositions<T>(s: seq<T>, p: T -> bool, i: nat): (k: seq<nat>)
    requires i <= |s|
    ensures forall j :: 0 <= j < |k| ==> i <= k[j] < |s| && p(s[k[j]])
    ensures forall j, l :: 0 <= j < l < |k| ==> k[j] < k[l]
    ensures forall n :: i <= n < |s| && p(s[n]) ==> n in k
    decreases |s| - i
  {
    if i == |s| then []
    else (if p(s[i]) then [i] else []) + KeptPositions(s, p, i + 1)
  }

  /** `Filter` keeps exactly the elements satisfying `p`, each once, in their original
      order: its result is `s` read at the kept positions. */
  lemma {:induction false} FilterIsOrderedSelection<T>(s: seq<T>, p: T -> bool, i: nat)
    requires i <= |s|
    ensures var k := KeptPositions(s, p, i);
      |Filter(s[i..], p)| == |k| && forall j :: 0 <= j < |k| ==> Filter(s[i..], p)[j] == s[k[j]]
    decreases |s| - i
  {
    if i < |s| {
      var f := Filter(s[i + 1..], p);
      var k := KeptPositions(s, p, i + 1);
      FilterIsOrderedSelection(s, p, i + 1);
      assert s[i..][1..] == s[i + 1..];
      assert Filter(s[i..], p) == (if p(s[i]) then [s[i]] else []) + f;
      SelectionCons(s, i, f, k, p(s[i]));
    }
  }
}
