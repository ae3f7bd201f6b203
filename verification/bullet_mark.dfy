/** `bulletMark` of assets/component.tsx: the mark drawn in front of the
    `index`-th item of a list, for a bullet style. JavaScript strings are
    sequences of UTF-16 code units, so labels are modelled as such. */
module BulletMark {
  import opened JsResults

  /** A UTF-16 code unit. */
  type CodeUnit = c: int | 0 <= c < 0x1_0000

  /** A JavaScript string. */
  type JsString = seq<CodeUnit>

  const Dot: CodeUnit := 46
  const DigitZero: CodeUnit := 48
  /** The code of 'a', where lower-case labels start. */
  const LowerA: CodeUnit := 97
  /** The code of 'A', where upper-case labels start. */
  const UpperA: CodeUnit := 65
  /** Letters per alphabet. */
  const Letters: nat := 26

  /** `String.fromCharCode(n)`: the argument is taken modulo 2^16. */
  function FromCharCode(n: int): CodeUnit {
    n % 0x1_0000
  }

  /** The position a list index is labelled with: 0 for 0, half of a nonzero
      even index, an odd index itself. */
  function Normalise(index: nat): nat {
    if index == 0 then 0 else if index % 2 == 0 then index / 2 else index
  }

  /** `abullet` / `Abullet`: the letter for `i % 26`, preceded for `i >= 26`
      by the letter for `i / 26 - 1`, then a dot; `base` is the code of the
      first letter. */
  function Alphabetic(base: CodeUnit, i: nat): JsString {
    var last := FromCharCode(base + i % Letters);
    if i >= Letters then [FromCharCode(base + i / Letters - 1), last, Dot] else [last, Dot]
  }

  /** The decimal numeral of `n`, as `String(n)` writes it. */
  function Decimal(n: nat): (s: JsString)
    decreases n
  {
    if n < 10 then [DigitZero + n] else Decimal(n / 10) + [DigitZero + n % 10]
  }

  /** bulletMark(bullet, index); None is the `undefined` of the roman style,
      whose helper was left without a return statement. */
  function Label(bullet: JsString, index: nat): Option<JsString> {
    var i := Normalise(index);
    if bullet == [LowerA] then Some(Alphabetic(LowerA, i))
    else if bullet == [UpperA] then Some(Alphabetic(UpperA, i))
    else if bullet == [73] then None
    else if bullet == [49] then Some(Decimal(i + 1) + [Dot])
    else Some(bullet)
  }

  // ---------------------------------------------------------------------------
  // Reading labels back

  predicate IsDigit(c: CodeUnit) {
    DigitZero <= c < DigitZero + 10
  }

  /** The number a string of decimal digits denotes. */
  function DigitsValue(s: JsString): nat
    requires forall k :: 0 <= k < |s| ==> IsDigit(s[k])
  {
    if s == [] then 0
    else
      assert IsDigit(s[|s| - 1]);
      DigitsValue(s[..|s| - 1]) * 10 + (s[|s| - 1] - DigitZero)
  }

  /** The position an alphabetic mark of base `base` stands for: one letter
      `x` is `x - base`, two letters `x y` are `26 * (x - base + 1) + (y - base)`. */
  function AlphabeticIndex(base: CodeUnit, mark: JsString): int {
    if |mark| == 2 then mark[0] - base
    else if |mark| == 3 then Letters * (mark[0] - base + 1) + (mark[1] - base)
    else -1
  }

  /** The numeral is made of digits, has no leading zero, and reads back as `n`. */
  lemma {:induction false} DecimalRoundTrip(n: nat)
    ensures |Decimal(n)| > 0
    ensures forall k :: 0 <= k < |Decimal(n)| ==> IsDigit(Decimal(n)[k])
    ensures Decimal(n)[0] == DigitZero ==> n == 0
    ensures DigitsValue(Decimal(n)) == n
  {
    if n >= 10 {
      DecimalRoundTrip(n / 10);
      var s := Decimal(n);
      assert s[..|s| - 1] == Decimal(n / 10);
    }
  }

  /** Style "1" labels position `i` with the numeral of `i + 1` and a dot. */
  lemma NumericLabel(index: nat)
    ensures var r := Label([49], index);
      && r.Some? && |r.value| >= 2 && r.value[|r.value| - 1] == Dot
      && (forall k :: 0 <= k < |r.value| - 1 ==> IsDigit(r.value[k]))
      && DigitsValue(r.value[..|r.value| - 1]) == Normalise(index) + 1
  {
    var i := Normalise(index);
    DecimalRoundTrip(i + 1);
    var r := Label([49], index).value;
    assert r[..|r| - 1] == Decimal(i + 1);
  }

  /** Style "a" labels position `i < 26` with the `i`-th lower-case letter and
      a dot, and a later position with two code units and a dot. */
  lemma LowerAlphabeticLabel(index: nat)
    ensures var i := Normalise(index);
      var r := Label([LowerA], index);
      && r.Some?
      && (i < Letters ==> r.value == [LowerA + i, Dot])
      && (i >= Letters ==> r.value == [FromCharCode(LowerA + i / Letters - 1), LowerA + i % Letters, Dot])
  {
  }

  /** Style "A" is style "a" with upper-case letters. */
  lemma UpperAlphabeticLabel(index: nat)
    ensures var i := Normalise(index);
      var r := Label([UpperA], index);
      && r.Some?
      && (i < Letters ==> r.value == [UpperA + i, Dot])
      && (i >= Letters ==> r.value == [FromCharCode(UpperA + i / Letters - 1), UpperA + i % Letters, Dot])
  {
  }

  /** Up to position 26 * 27 - 1 ("zz.") an alphabetic mark stays within its
      alphabet and reads back as its position, so distinct positions get
      distinct labels; position 702 would need a 27th letter. */
  lemma AlphabeticRoundTrip(base: CodeUnit, i: nat)
    requires base == LowerA || base == UpperA
    requires i < Letters * (Letters + 1)
    ensures var mark := Alphabetic(base, i);
      && (forall k :: 0 <= k < |mark| - 1 ==> base <= mark[k] < base + Letters)
      && AlphabeticIndex(base, mark) == i
  {
    if i >= Letters {
      assert i / Letters - 1 < Letters;
      assert Letters * (i / Letters - 1 + 1) + i % Letters == i;
    }
  }

  /** An odd position is labelled like the even index twice as large: the
      labels of indices 1 and 2, 3 and 6, and so on coincide. */
  lemma OddAndDoubleShareLabel(bullet: JsString, index: nat)
    requires index % 2 == 1
    ensures Label(bullet, index) == Label(bullet, 2 * index)
  {
    assert Normalise(2 * index) == index;
  }

  /** Which indices share a position: exactly 0 for position 0, and for a
      positive position `n` the index `2n` and, when `n` is odd, `n` itself. */
  lemma NormalisePreimage(index: nat, n: nat)
    ensures Normalise(index) == n <==>
      (n == 0 && index == 0) || (n > 0 && index == 2 * n) || (n % 2 == 1 && index == n)
  {
  }

  /** The unfinished roman style produces no mark at all. */
  lemma RomanHasNoLabel(index: nat)
    ensures Label([73], index) == None
  {
  }

  /** Any other style string is itself the mark, whatever the index. */
  lemma OtherStylesEcho(bullet: JsString, index: nat)
    requires bullet != [LowerA] && bullet != [UpperA] && bullet != [73] && bullet != [49]
    ensures Label(bullet, index) == Some(bullet)
  {
  }
}
