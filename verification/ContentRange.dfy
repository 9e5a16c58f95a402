/** Byte ranges of media content: what the Range header parser accepts, against
    section 14.1.2 of RFC 9110, and the loop that copies the selected bytes. */
module ContentRanges {
  import opened Wrappers
  import opened RequestHash

  const MAX_RANGE_HEADER_BYTES: nat := 128
  const COPY_BUFFER_BYTES: nat := 0x1_0000

  /** No header, a refused one, or the inclusive interval it asks for. */
  datatype Parsed = Absent | Refused | Interval(start: int, end: int)

  // ----------------------------------------------------------- the parser

  predicate Digits(s: string) {
    s != "" && forall i :: 0 <= i < |s| ==> '0' <= s[i] <= '9'
  }

  /** A decimal integer with an optional sign, within int64. */
  function ParseInt(s: string): Option<int> {
    var digits := if s != "" && (s[0] == '+' || s[0] == '-') then s[1..] else s;
    if !Digits(digits) then None
    else
      var value := if s[0] == '-' then -ValueOf(digits) else ValueOf(digits);
      if MIN_INT64 <= value <= MAX_INT64 then Some(value) else None
  }

  function Split(s: string, separator: char): (parts: seq<string>)
    ensures |parts| >= 1
  {
    if s == "" then [""]
    else
      var parts, last := Split(s[..|s| - 1], separator), s[|s| - 1];
      if last == separator then parts + [""]
      else parts[..|parts| - 1] + [parts[|parts| - 1] + [last]]
  }

  /** The texts before and after the dash. */
  function ParseParts(left: string, right: string, size: int): Parsed {
    if (left == "" && right == "") || size <= 0 then Refused
    else if left == "" then
      var suffix := ParseInt(right);
      if suffix.None? || suffix.value <= 0 then Refused
      else Interval(size - (if suffix.value > size then size else suffix.value), size - 1)
    else
      var start := ParseInt(left);
      if start.None? || start.value < 0 || start.value >= size then Refused
      else if right == "" then Interval(start.value, size - 1)
      else
        var end := ParseInt(right);
        if end.None? || end.value < start.value then Refused
        else Interval(start.value, if end.value >= size then size - 1 else end.value)
  }

  function ParseContentRange(values: seq<string>, size: int): Parsed {
    if values == [] then Absent
    else if |values| != 1 || values[0] == "" || |values[0]| > MAX_RANGE_HEADER_BYTES then Refused
    else if !("bytes=" <= values[0]) || ',' in values[0] then Refused
    else
      var parts := Split(values[0][6..], '-');
      if |parts| != 2 then Refused else ParseParts(parts[0], parts[1], size)
  }

  // --------------------------------------------------------- the grammar

  /** A single range of the grammar: its positions as strings of digits. */
  datatype Spec = FromTo(first: string, last: string) | From(first: string) | Last(length: string)

  predicate Grammatical(spec: Spec) {
    match spec
    case FromTo(first, last) => Digits(first) && Digits(last)
    case From(first) => Digits(first)
    case Last(length) => Digits(length)
  }

  function Signed(digits: string, plus: bool): string {
    if plus then "+" + digits else digits
  }

  /** The header text of a range, where the grammar has no plus signs. */
  function Rendered(spec: Spec, plus0: bool, plus1: bool): string {
    "bytes=" + match spec
               case FromTo(first, last) => Signed(first, plus0) + "-" + Signed(last, plus1)
               case From(first) => Signed(first, plus0) + "-"
               case Last(length) => "-" + Signed(length, plus1)
  }

  /** The byte at position `i` is one of those asked for. */
  predicate Wanted(spec: Spec, size: int, i: int) {
    0 <= i < size && match spec
                     case FromTo(first, last) => ValueOf(first) <= i <= ValueOf(last)
                     case From(first) => ValueOf(first) <= i
                     case Last(length) => i >= size - ValueOf(length)
  }

  /** The last position and the suffix length fit an int64. */
  predicate Fits(spec: Spec) {
    match spec
    case FromTo(_, last) => ValueOf(last) <= MAX_INT64
    case From(_) => true
    case Last(length) => ValueOf(length) <= MAX_INT64
  }

  // ------------------------------------------------------------ the texts

  lemma SplitOneMore(s: string, separator: char)
    requires s != ""
    ensures
      var parts, last := Split(s[..|s| - 1], separator), s[|s| - 1];
      Split(s, separator) ==
        if last == separator then parts + [""]
        else parts[..|parts| - 1] + [parts[|parts| - 1] + [last]]
  {
  }

  lemma {:induction false} SplitApart(s: string, separator: char)
    ensures forall k :: 0 <= k < |Split(s, separator)| ==> separator !in Split(s, separator)[k]
    ensures |Split(s, separator)| == 1 ==> s == Split(s, separator)[0]
    ensures |Split(s, separator)| == 2 ==> s == Split(s, separator)[0] + [separator] + Split(s, separator)[1]
  {
    if s != "" {
      var init, last := s[..|s| - 1], s[|s| - 1];
      var parts, all := Split(init, separator), Split(s, separator);
      SplitApart(init, separator);
      SplitOneMore(s, separator);
      hide Split;
      assert s == init + [last];
      if last == separator {
        assert |all| == 2 ==> s == parts[0] + [separator] + "";
      } else {
        var tail := parts[|parts| - 1] + [last];
        assert separator !in tail;
        assert |all| == 1 ==> all[0] == tail;
        assert |all| == 2 ==> all[0] == parts[0] && all[1] == tail && s == parts[0] + [separator] + tail;
      }
    }
  }

  lemma {:induction false} SplitNone(a: string, separator: char)
    requires separator !in a
    ensures Split(a, separator) == [a]
  {
    if a != "" {
      SplitNone(a[..|a| - 1], separator);
      assert a == a[..|a| - 1] + [a[|a| - 1]];
    }
  }

  lemma {:induction false} SplitOnce(a: string, b: string, separator: char)
    requires separator !in a && separator !in b
    ensures Split(a + [separator] + b, separator) == [a, b]
  {
    var s := a + [separator] + b;
    if b == "" {
      assert s[..|s| - 1] == a;
      SplitNone(a, separator);
    } else {
      var init := b[..|b| - 1];
      assert s[..|s| - 1] == a + [separator] + init;
      SplitOnce(a, init, separator);
      assert b == init + [b[|b| - 1]];
    }
  }

  lemma {:induction false} DigitsAreNatural(s: string)
    requires forall i :: 0 <= i < |s| ==> '0' <= s[i] <= '9'
    ensures ValueOf(s) >= 0
  {
    if s != "" {
      DigitsAreNatural(s[..|s| - 1]);
    }
  }

  lemma ParsesSigned(digits: string, plus: bool)
    requires Digits(digits)
    ensures ParseInt(Signed(digits, plus)) == if ValueOf(digits) <= MAX_INT64 then Some(ValueOf(digits)) else None
    ensures ValueOf(digits) >= 0
    ensures Signed(digits, plus) != "" && '-' !in Signed(digits, plus) && ',' !in Signed(digits, plus)
  {
    DigitsAreNatural(digits);
    assert plus ==> Signed(digits, plus)[1..] == digits;
  }

  lemma UnsignedParsed(s: string) returns (digits: string, plus: bool)
    requires ParseInt(s).Some? && '-' !in s
    ensures Digits(digits) && s == Signed(digits, plus)
  {
    plus := s[0] == '+';
    digits := if plus then s[1..] else s;
  }

  // -------------------------------------------------------------- results

  /** The two texts around the dash. */
  function Left(spec: Spec, plus: bool): string {
    match spec
    case FromTo(first, _) => Signed(first, plus)
    case From(first) => Signed(first, plus)
    case Last(_) => ""
  }

  function Right(spec: Spec, plus: bool): string {
    match spec
    case FromTo(_, last) => Signed(last, plus)
    case From(_) => ""
    case Last(length) => Signed(length, plus)
  }

  lemma RenderedIs(spec: Spec, plus0: bool, plus1: bool)
    ensures Rendered(spec, plus0, plus1) == "bytes=" + (Left(spec, plus0) + "-" + Right(spec, plus1))
  {
    hide Signed;
    match spec {
      case FromTo(_, _) =>
      case From(first) => assert Signed(first, plus0) + "-" + "" == Signed(first, plus0) + "-";
      case Last(length) => assert "" + "-" + Signed(length, plus1) == "-" + Signed(length, plus1);
    }
  }

  lemma HeaderText(left: string, right: string)
    requires ',' !in left && ',' !in right
    ensures var header := "bytes=" + (left + "-" + right);
      "bytes=" <= header && ',' !in header && header[6..] == left + "-" + right
  {
  }

  lemma RenderedSplits(spec: Spec, plus0: bool, plus1: bool)
    requires Grammatical(spec)
    ensures var header := Rendered(spec, plus0, plus1);
      "bytes=" <= header && ',' !in header && Split(header[6..], '-') == [Left(spec, plus0), Right(spec, plus1)]
  {
    hide Split, ParseInt, Signed, Digits, Rendered;
    RenderedIs(spec, plus0, plus1);
    match spec {
      case FromTo(first, last) => ParsesSigned(first, plus0); ParsesSigned(last, plus1);
      case From(first) => ParsesSigned(first, plus0);
      case Last(length) => ParsesSigned(length, plus1);
    }
    HeaderText(Left(spec, plus0), Right(spec, plus1));
    SplitOnce(Left(spec, plus0), Right(spec, plus1), '-');
  }

  lemma PartsAreReadRight(spec: Spec, plus0: bool, plus1: bool, size: int)
    requires Grammatical(spec) && size <= MAX_INT64
    ensures var r := ParseParts(Left(spec, plus0), Right(spec, plus1), size);
      && (r.Interval? <==> Fits(spec) && exists i :: Wanted(spec, size, i))
      && (r.Interval? ==> 0 <= r.start <= r.end < size && forall i :: Wanted(spec, size, i) <==> r.start <= i <= r.end)
      && r != Absent
  {
    hide ParseInt, Digits, Signed, ValueOf;
    match spec {
      case FromTo(first, last) =>
        ParsesSigned(first, plus0);
        ParsesSigned(last, plus1);
        assert ValueOf(first) <= ValueOf(last) && ValueOf(first) < size ==> Wanted(spec, size, ValueOf(first));
      case From(first) =>
        ParsesSigned(first, plus0);
        assert ValueOf(first) < size ==> Wanted(spec, size, ValueOf(first));
      case Last(length) =>
        ParsesSigned(length, plus1);
        assert ValueOf(length) > 0 && size > 0 ==> Wanted(spec, size, size - 1);
    }
  }

  /** A range of the grammar, with positions of any size and texts of any
      length: accepted exactly if its header has at most 128 bytes, it wants
      some byte, and its last position or suffix length fits an int64; and then
      as the interval of exactly the bytes it wants. Plus signs, which the
      grammar does not have, make no difference. */
  lemma RangesAreReadRight(spec: Spec, plus0: bool, plus1: bool, size: int)
    requires Grammatical(spec) && size <= MAX_INT64
    ensures var header := Rendered(spec, plus0, plus1);
      var r := ParseContentRange([header], size);
      && (r.Interval? <==> |header| <= MAX_RANGE_HEADER_BYTES && Fits(spec) && exists i :: Wanted(spec, size, i))
      && (r.Interval? ==> 0 <= r.start <= r.end < size && forall i :: Wanted(spec, size, i) <==> r.start <= i <= r.end)
      && r != Absent
  {
    RenderedSplits(spec, plus0, plus1);
    PartsAreReadRight(spec, plus0, plus1, size);
    hide Split, ParseParts, Wanted, Fits, Left, Right, Rendered, Grammatical;
  }

  /** The first byte may be asked for with a plus sign. */
  lemma PlusSignIsAccepted()
    ensures ParseContentRange(["bytes=+0-0"], 10) == Interval(0, 0)
  {
    var spec := FromTo("0", "0");
    assert Rendered(spec, true, false) == "bytes=+0-0";
    ZeroIsZero();
    RangesAreReadRight(spec, true, false, 10);
    hide ParseContentRange, Rendered;
    assert Wanted(spec, 10, 0);
    var r := ParseContentRange(["bytes=+0-0"], 10);
    assert Wanted(spec, 10, r.start) && Wanted(spec, 10, r.end);
  }

  lemma ZeroIsZero()
    ensures Digits("0") && ValueOf("0") == 0
  {
    assert ValueOf("") == 0;
  }

  /** A range that wants all of ten bytes is refused if it writes its end as
      2^63, or with many zeros. */
  lemma SatisfiableRangesAreRefused()
    ensures
      var wide := FromTo("0", Decimal(MAX_INT64 + 1));
      && Grammatical(wide) && (forall i :: Wanted(wide, 10, i) <==> 0 <= i < 10)
      && |Rendered(wide, false, false)| <= MAX_RANGE_HEADER_BYTES
      && ParseContentRange([Rendered(wide, false, false)], 10) == Refused
    ensures
      var long := From(Zeros(128));
      && Grammatical(long) && (forall i :: Wanted(long, 10, i) <==> 0 <= i < 10) && Fits(long)
      && ParseContentRange([Rendered(long, false, false)], 10) == Refused
  {
    ZeroIsZero();
    DecimalReadsBack(MAX_INT64 + 1);
    Pow10Of19();
    DecimalIsShort(MAX_INT64 + 1, 19);
    ZerosAreZero(128);
    hide ParseContentRange, Decimal, ValueOf, Digits, Zeros, Pow10;
    DecimalIsDigits(MAX_INT64 + 1);
    RangesAreReadRight(FromTo("0", Decimal(MAX_INT64 + 1)), false, false, 10);
    RangesAreReadRight(From(Zeros(128)), false, false, 10);
  }

  lemma DecimalIsDigits(n: nat)
    ensures Digits(Decimal(n))
  {
    hide Decimal;
  }

  function Zeros(n: nat): string {
    seq(n, _ => '0')
  }

  lemma {:induction false} ZerosAreZero(n: nat)
    ensures ValueOf(Zeros(n)) == 0 && (n > 0 ==> Digits(Zeros(n)))
  {
    if n > 0 {
      assert Zeros(n)[..n - 1] == Zeros(n - 1);
      ZerosAreZero(n - 1);
    }
  }

  lemma AcceptedPartsAreSigned(left: string, right: string, size: int)
    returns (spec: Spec, plus0: bool, plus1: bool)
    requires ParseParts(left, right, size).Interval? && '-' !in left && '-' !in right
    ensures Grammatical(spec) && Rendered(spec, plus0, plus1) == "bytes=" + (left + "-" + right)
  {
    hide ParseInt, Digits;
    plus0, plus1 := false, false;
    var first, last := "", "";
    if left != "" {
      first, plus0 := UnsignedParsed(left);
    }
    if right != "" {
      last, plus1 := UnsignedParsed(right);
    }
    hide Signed;
    spec := if left == "" then Last(last) else if right == "" then From(first) else FromTo(first, last);
    assert left == "" ==> left + "-" + right == "-" + right;
    assert right == "" ==> left + "-" + right == left + "-";
  }

  /** Nothing else is accepted: an accepted header is one range of the grammar,
      but for plus signs. */
  lemma AcceptedHeadersAreRanges(values: seq<string>, size: int)
    returns (spec: Spec, plus0: bool, plus1: bool)
    requires ParseContentRange(values, size).Interval?
    ensures Grammatical(spec) && values == [Rendered(spec, plus0, plus1)]
    ensures |values[0]| <= MAX_RANGE_HEADER_BYTES
  {
    hide Split, ParseParts, Rendered, Grammatical;
    var header := values[0];
    var parts := Split(header[6..], '-');
    SplitApart(header[6..], '-');
    spec, plus0, plus1 := AcceptedPartsAreSigned(parts[0], parts[1], size);
    assert header == "bytes=" + header[6..];
  }

  /** Every accepted interval lies within the content. */
  lemma AcceptedIntervalsFit(values: seq<string>, size: int)
    requires size <= MAX_INT64 && ParseContentRange(values, size).Interval?
    ensures var r := ParseContentRange(values, size); 0 <= r.start <= r.end < size
  {
    var spec, plus0, plus1 := AcceptedHeadersAreRanges(values, size);
    hide Rendered, Grammatical, Wanted, Fits, ParseContentRange;
    RangesAreReadRight(spec, plus0, plus1, size);
  }

  // ------------------------------------------------------------- the copy

  newtype Byte = b: int | 0 <= b < 256

  datatype Outcome = Done | EndOfFile | ReadFailed | WriteFailed | ShortWrite | NoProgress | Cancelled

  /** A file being read: reads may be short and may fail at any point. A
      `steady` one fails never, and makes progress up to its end, which it
      reports at the end only. */
  class Reader {
    const content: seq<Byte>
    const steady: bool
    var position: nat

    constructor (content: seq<Byte>, steady: bool)
      ensures this.content == content && this.steady == steady && position == 0
    {
      this.content, this.steady, position := content, steady, 0;
    }

    ghost predicate Valid()
      reads this
    {
      position <= |content|
    }

    method Read(buffer: array<Byte>, limit: nat) returns (count: nat, failure: Outcome)
      requires Valid() && limit <= buffer.Length
      modifies this, buffer
      ensures Valid() && position == old(position) + count && count <= limit
      ensures buffer[..count] == content[old(position)..position]
      ensures failure in {Done, EndOfFile, ReadFailed}
      ensures steady && limit > 0 ==>
        && (count > 0 <==> old(position) < |content|)
        && failure != ReadFailed
        && (failure == EndOfFile ==> position == |content|) && (count == 0 ==> failure == EndOfFile)
    {
      count, failure := *, *;
      if count > limit || position + count > |content| {
        count := 0;
      }
      if failure != Done && failure != EndOfFile {
        failure := ReadFailed;
      }
      if steady && limit > 0 {
        if count == 0 && position < |content| {
          count := 1;
        }
        if count == 0 {
          failure := EndOfFile;
        } else if failure == ReadFailed || position + count < |content| {
          failure := Done;
        }
      }
      for i := 0 to count
        invariant position == old(position) && position + count <= |content|
        invariant forall k :: 0 <= k < i ==> buffer[k] == content[position + k]
      {
        buffer[i] := content[position + i];
      }
      position := position + count;
    }
  }

  /** A response body: writes may be short and may fail, but not on a `steady`
      one. */
  class Writer {
    const steady: bool
    var body: seq<Byte>

    constructor (steady: bool)
      ensures body == [] && this.steady == steady
    {
      this.steady, body := steady, [];
    }

    method Write(data: seq<Byte>) returns (written: nat, ok: bool)
      modifies this
      ensures written <= |data| && body == old(body) + data[..written]
      ensures steady ==> ok && written == |data|
    {
      written, ok := *, *;
      if steady {
        ok := true;
      }
      if written > |data| || steady {
        written := |data|;
      }
      body := body + data[..written];
    }
  }

  lemma SlicesJoin(content: seq<Byte>, start: nat, before: nat, after: nat, written: nat)
    requires start <= before <= before + written <= after <= |content|
    ensures content[start..before] + content[before..after][..written] == content[start..before + written]
  {
    assert content[before..after][..written] == content[before..before + written];
  }

  /** Copies up to `remaining` bytes through a buffer. What is written is always
      a prefix of what the reader has from its position on; the copy is done
      only with all of the bytes, and an end of file only before them. With
      nothing in its way it is done if the bytes are there, and else at the end
      of the file. */
  method CopyContent(writer: Writer, reader: Reader, length: int, cancellable: bool)
    returns (outcome: Outcome, ghost sent: nat)
    requires reader.Valid()
    modifies writer, reader
    ensures reader.Valid() && old(reader.position) + sent <= reader.position
    ensures writer.body == old(writer.body) + reader.content[old(reader.position)..old(reader.position) + sent]
    ensures sent <= Needed(length)
    ensures outcome == Done ==> sent == Needed(length)
    ensures outcome == EndOfFile || outcome == NoProgress || outcome == Cancelled ==> sent < Needed(length)
    ensures outcome == Cancelled ==> cancellable
    ensures reader.steady && writer.steady && !cancellable ==>
      if old(reader.position) + Needed(length) <= |reader.content| then outcome == Done
      else outcome == EndOfFile && old(reader.position) + sent == |reader.content|
  {
    var buffer := new Byte[COPY_BUFFER_BYTES];
    var remaining := length;
    ghost var start := reader.position;
    sent := 0;
    while remaining > 0
      invariant reader.Valid() && sent == Needed(length) - Needed(remaining)
      invariant reader.position == start + sent
      invariant writer.body == old(writer.body) + reader.content[start..reader.position]
    {
      var cancelled: bool := *;
      if cancelled && cancellable {
        return Cancelled, sent;
      }
      var readSize := if remaining < buffer.Length then remaining else buffer.Length;
      ghost var before := reader.position;
      var count, failure := reader.Read(buffer, readSize);
      if count > 0 {
        var written, ok := writer.Write(buffer[..count]);
        SlicesJoin(reader.content, start, before, reader.position, written);
        assert writer.body == old(writer.body) + reader.content[start..before + written];
        sent := sent + written;
        if !ok {
          return WriteFailed, sent;
        }
        if written != count {
          return ShortWrite, sent;
        }
        remaining := remaining - count;
      }
      if failure != Done {
        if failure == EndOfFile && remaining == 0 {
          return Done, sent;
        }
        return failure, sent;
      }
      if count == 0 {
        return NoProgress, sent;
      }
    }
    return Done, sent;
  }

  function Needed(length: int): nat { if length < 0 then 0 else length }

  // -------------------------------------------------------------- the answer

  /** The headers ask for `spec`, in a form and size the parser takes, and for
      some byte. */
  ghost predicate AsksFor(values: seq<string>, spec: Spec, size: int) {
    && Grammatical(spec) && Fits(spec)
    && (exists plus0, plus1 :: values == [Rendered(spec, plus0, plus1)])
    && |values[0]| <= MAX_RANGE_HEADER_BYTES
    && exists i :: Wanted(spec, size, i)
  }

  ghost predicate AsksForSome(values: seq<string>, size: int) {
    exists spec :: AsksFor(values, spec, size)
  }

  /** No header, one that asks for something, and all others. */
  lemma ParsesExactly(values: seq<string>, size: int)
    requires size <= MAX_INT64
    ensures ParseContentRange(values, size) == Absent <==> values == []
    ensures ParseContentRange(values, size).Interval? <==> AsksForSome(values, size)
    ensures forall spec :: AsksFor(values, spec, size) ==>
      var r := ParseContentRange(values, size);
      && r.Interval? && 0 <= r.start <= r.end < size
      && forall i :: Wanted(spec, size, i) <==> r.start <= i <= r.end
  {
    AbsentExactly(values, size);
    hide ParseContentRange, Rendered, Grammatical, Fits, Wanted;
    if ParseContentRange(values, size).Interval? {
      var spec, plus0, plus1 := AcceptedHeadersAreRanges(values, size);
      RangesAreReadRight(spec, plus0, plus1, size);
      assert AsksFor(values, spec, size);
    }
    forall spec | AsksFor(values, spec, size)
      ensures
        var r := ParseContentRange(values, size);
        && r.Interval? && 0 <= r.start <= r.end < size
        && forall i :: Wanted(spec, size, i) <==> r.start <= i <= r.end
    {
      var plus0, plus1 :| values == [Rendered(spec, plus0, plus1)];
      RangesAreReadRight(spec, plus0, plus1, size);
    }
  }

  lemma AbsentExactly(values: seq<string>, size: int)
    ensures ParseContentRange(values, size) == Absent <==> values == []
  {
  }

  /** A GET of content that is not conditional: without a Range header the whole
      file, for one range of it the wanted bytes, and otherwise a refusal
      without any byte. With nothing in the way all of them are sent. */
  method Serve(values: seq<string>, size: int, file: Reader, writer: Writer, cancellable: bool)
    returns (status: int, outcome: Outcome, ghost first: int, ghost last: int)
    requires file.position == 0 && size == |file.content| <= MAX_INT64 && writer.body == []
    modifies file, writer
    ensures status == if values == [] then 200 else if AsksForSome(values, size) then 206 else 416
    ensures status == 416 ==> writer.body == []
    ensures status == 200 ==> first == 0 && last == size - 1
    ensures status == 206 ==> 0 <= first <= last < size
    ensures forall spec :: AsksFor(values, spec, size) ==> forall i :: Wanted(spec, size, i) <==> first <= i <= last
    ensures status != 416 ==>
      && 0 <= first <= last + 1 <= size && writer.body <= file.content[first..last + 1]
      && (outcome == Done ==> writer.body == file.content[first..last + 1])
      && (file.steady && writer.steady && !cancellable ==> outcome == Done)
  {
    hide ParseContentRange, AsksFor, AsksForSome;
    ParsesExactly(values, size);
    var r := ParseContentRange(values, size);
    ghost var sent;
    first, last := 0, size - 1;
    match r {
      case Refused => return 416, Done, first, last;
      case Absent =>
        outcome, sent := CopyContent(writer, file, size, cancellable);
        status := 200;
      case Interval(start, end) =>
        AcceptedIntervalsFit(values, size);
        file.position := start;
        outcome, sent := CopyContent(writer, file, end - start + 1, cancellable);
        status, first, last := 206, start, end;
    }
  }
}
