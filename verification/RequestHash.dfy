/** The strings whose digests identify install and activation requests, and the
    hand-written decimal conversion one of them uses. A digest is taken to be
    as good as the string it is computed from. */
module RequestHash {
  const MAX_INT64 := 0x7fff_ffff_ffff_ffff
  const MIN_INT64 := -0x8000_0000_0000_0000
  const SEPARATOR := '\0'
  const INSTALL_PREFIX := "foliopath:model-install:v1\0"
  const ACTIVATION_PREFIX := "foliopath:model-activation:v1\0"

  // ----------------------------------------------------------- decimals

  function Digit(d: nat): char
    requires d < 10
  {
    '0' + d as char
  }

  /** The decimal numeral of a natural number, without leading zeros. */
  function Decimal(n: nat): (text: string)
    ensures |text| > 0 && forall i :: 0 <= i < |text| ==> '0' <= text[i] <= '9'
    ensures text[0] == '0' ==> n == 0 && text == "0"
  {
    if n < 10 then [Digit(n)] else Decimal(n / 10) + [Digit(n % 10)]
  }

  function Canonical(value: int): string {
    if value < 0 then "-" + Decimal(-value) else Decimal(value)
  }

  /** What the conversion returns: canonical except for the least int64, whose
      negation wraps round to itself. */
  function Converted(value: int): string {
    if value == MIN_INT64 then "-" else Canonical(value)
  }

  function ValueOf(text: string): int {
    if text == [] then 0
    else 10 * ValueOf(text[..|text| - 1]) + (text[|text| - 1] as int - '0' as int)
  }

  lemma {:induction false} DecimalReadsBack(n: nat)
    ensures ValueOf(Decimal(n)) == n
  {
    if n < 10 {
      assert ValueOf([Digit(n)]) == 10 * ValueOf([]) + n;
    } else {
      DecimalReadsBack(n / 10);
      var text := Decimal(n);
      assert text[..|text| - 1] == Decimal(n / 10);
    }
  }

  lemma CanonicalIsInjective(a: int, b: int)
    requires Canonical(a) == Canonical(b)
    ensures a == b
  {
    DecimalReadsBack(if a < 0 then -a else a);
    DecimalReadsBack(if b < 0 then -b else b);
    assert (Canonical(a)[0] == '-' <==> a < 0) && (Canonical(b)[0] == '-' <==> b < 0);
    if a < 0 && b < 0 {
      assert Decimal(-a) == Canonical(a)[1..] == Canonical(b)[1..] == Decimal(-b);
    }
  }

  lemma ConvertedIsInjective(a: int, b: int)
    requires MIN_INT64 <= a <= MAX_INT64 && MIN_INT64 <= b <= MAX_INT64
    ensures Converted(a) == Converted(b) <==> a == b
  {
    if Converted(a) == Converted(b) && a != MIN_INT64 && b != MIN_INT64 {
      CanonicalIsInjective(a, b);
    }
  }

  function Pow10(n: nat): nat {
    if n == 0 then 1 else 10 * Pow10(n - 1)
  }

  lemma Pow10Of19()
    ensures MAX_INT64 + 1 < Pow10(19)
  {
    assert Pow10(4) == 10000;
    assert Pow10(8) == 1_0000_0000;
    assert Pow10(12) == 1_0000_0000_0000;
    assert Pow10(16) == 1_0000_0000_0000_0000;
  }

  lemma {:induction false} DecimalIsShort(n: nat, digits: nat)
    requires n < Pow10(digits) && digits > 0
    ensures |Decimal(n)| <= digits
  {
    if n >= 10 {
      DecimalIsShort(n / 10, digits - 1);
    }
  }

  function Negated(value: int): int {
    if value == MIN_INT64 then MIN_INT64 else -value
  }

  lemma Pow10Step(n: nat, rest: nat)
    requires 0 < rest < Pow10(n)
    ensures 0 < n && rest / 10 < Pow10(n - 1)
  {
  }

  /** The digits still to come in front of those already written. */
  function Pending(rest: nat): string {
    if rest == 0 then "" else Decimal(rest)
  }

  lemma NothingPending()
    ensures Pending(0) == ""
  {
  }

  lemma PendingStep(rest: nat, written: string)
    requires rest > 0
    ensures Pending(rest) + written == Pending(rest / 10) + ([Digit(rest % 10)] + written)
  {
    if rest < 10 {
      assert Pending(rest) == [Digit(rest % 10)];
    } else {
      assert Pending(rest) == Pending(rest / 10) + [Digit(rest % 10)];
    }
  }

  /** The digit loop. Starting at the end of the buffer it leaves a free byte
      in front, so the sign still fits. */
  method FillDigits(buffer: array<char>, whole: nat) returns (index: nat)
    requires buffer.Length == 20 && whole < Pow10(19)
    modifies buffer
    ensures 1 <= index <= buffer.Length && buffer[index..] == Pending(whole)
  {
    hide Pow10, Digit, Decimal, Pending;
    index := buffer.Length;
    var rest: nat := whole;
    NothingPending();
    while rest > 0
      invariant 1 <= index <= buffer.Length && rest < Pow10(index - 1)
      invariant Pending(whole) == Pending(rest) + buffer[index..]
    {
      ghost var written := buffer[index..];
      PendingStep(rest, written);
      Pow10Step(index - 1, rest);
      index := index - 1;
      buffer[index] := Digit(rest % 10);
      assert buffer[index..] == [Digit(rest % 10)] + written;
      rest := rest / 10;
    }
  }

  lemma ZeroIsWritten()
    ensures Decimal(0) == "0"
  {
  }

  /** The conversion as written: the negation of the least int64 wraps round to
      a negative number, for which the digit loop does nothing. */
  method DecimalInt64(value: int) returns (text: string)
    requires MIN_INT64 <= value <= MAX_INT64
    ensures text == Converted(value)
  {
    hide Decimal, Pow10;
    if value == 0 {
      ZeroIsWritten();
      return "0";
    }
    var negative := value < 0;
    var rest := if negative then Negated(value) else value;
    var buffer := new char[20];
    Pow10Of19();
    var index := FillDigits(buffer, if rest > 0 then rest else 0);
    if negative {
      ghost var written := buffer[index..];
      index := index - 1;
      buffer[index] := '-';
      assert buffer[index..] == "-" + written;
    }
    text := buffer[index..];
  }

  // ---------------------------------------------------------- preimages

  function InstallPreimage(candidateId: string, storageMode: string): string {
    INSTALL_PREFIX + (candidateId + [SEPARATOR] + storageMode)
  }

  function ActivationPreimage(modelId: string, availabilityRevision: int): string {
    ACTIVATION_PREFIX + (modelId + [SEPARATOR] + Converted(availabilityRevision))
  }

  /** A string is cut unambiguously at its last separator. */
  lemma LastSeparatorCuts(separator: char, a: string, s: string, b: string, t: string)
    requires separator !in s && separator !in t
    requires a + [separator] + s == b + [separator] + t
    ensures a == b && s == t
  {
    var whole := a + [separator] + s;
    var other := b + [separator] + t;
    assert whole[|a|] == separator && other[|b|] == separator;
    assert whole[..|a|] == a && other[..|b|] == b;
    assert whole[|a| + 1..] == s && other[|b| + 1..] == t;
  }

  lemma PrefixCancels(p: string, a: string, b: string)
    requires p + a == p + b
    ensures a == b
  {
    assert (p + a)[|p|..] == a && (p + b)[|p|..] == b;
  }

  lemma PrefixesDiffer(rest: string, other: string)
    ensures INSTALL_PREFIX + rest != ACTIVATION_PREFIX + other
  {
    assert (INSTALL_PREFIX + rest)[16] == 'i' && (ACTIVATION_PREFIX + other)[16] == 'a';
  }

  lemma InstallPreimageIsInjective(id1: string, mode1: string, id2: string, mode2: string)
    requires (mode1 == "managed" || mode1 == "direct") && (mode2 == "managed" || mode2 == "direct")
    ensures InstallPreimage(id1, mode1) == InstallPreimage(id2, mode2) <==> id1 == id2 && mode1 == mode2
  {
    if InstallPreimage(id1, mode1) == InstallPreimage(id2, mode2) {
      PrefixCancels(INSTALL_PREFIX, id1 + [SEPARATOR] + mode1, id2 + [SEPARATOR] + mode2);
      LastSeparatorCuts(SEPARATOR, id1, mode1, id2, mode2);
    }
  }

  /** Even for identifiers that contain separators, and for every int64. */
  lemma ActivationPreimageIsInjective(id1: string, revision1: int, id2: string, revision2: int)
    requires MIN_INT64 <= revision1 <= MAX_INT64 && MIN_INT64 <= revision2 <= MAX_INT64
    ensures ActivationPreimage(id1, revision1) == ActivationPreimage(id2, revision2)
            <==> id1 == id2 && revision1 == revision2
  {
    if ActivationPreimage(id1, revision1) == ActivationPreimage(id2, revision2) {
      var text1, text2 := Converted(revision1), Converted(revision2);
      PrefixCancels(ACTIVATION_PREFIX, id1 + [SEPARATOR] + text1, id2 + [SEPARATOR] + text2);
      LastSeparatorCuts(SEPARATOR, id1, text1, id2, text2);
      ConvertedIsInjective(revision1, revision2);
    }
  }

  /** The one int64 whose text is not its numeral. */
  lemma LeastInt64IsNotConverted()
    ensures Converted(MIN_INT64) != Canonical(MIN_INT64)
    ensures forall v :: MIN_INT64 < v <= MAX_INT64 ==> Converted(v) == Canonical(v)
  {
    assert |Canonical(MIN_INT64)| > 1;
  }
}
