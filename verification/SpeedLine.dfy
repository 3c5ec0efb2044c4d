/**
 * The speed line: printed by the ESP32 (uart_handler.c:50-68), read and parsed by the Pi
 * (ECU_RASP/main.py:86-99). Speeds are reals.
 */
module SpeedLine {
  import opened Sequences
  import opened Decimal

  const NEWLINE: Byte := 10
  const POINT: Byte := 46

  function Abs(v: real): real { if v < 0.0 then -v else v }

  /** The first four decimals of |v|, as an integer number of ten-thousandths. */
  function TenThousandths(v: real): nat {
    (Abs(v) * 10000.0).Floor
  }

  /** What the receiver is meant to get: |v| cut off after four decimals. */
  function Truncated(v: real): real {
    TenThousandths(v) as real / 10000.0
  }

  function PrintSpeed(v: real): seq<Byte> {
    var whole := Abs(v).Floor;
    var fraction := ((Abs(v) - whole as real) * 10000.0).Floor;
    Digits(whole) + [POINT] + Padded(fraction) + [NEWLINE]
  }

  /** Index of the first b in s, or |s|. */
  function IndexOf(s: seq<Byte>, b: Byte): (i: nat)
    ensures i <= |s|
    ensures i < |s| ==> s[i] == b
  {
    if s == [] || s[0] == b then 0 else 1 + IndexOf(s[1..], b)
  }

  /** x divided by ten, k times over. */
  function ScaledDown(x: real, k: nat): real
    decreases k
  {
    if k == 0 then x else ScaledDown(x / 10.0, k - 1)
  }

  /** A line without its newline. */
  function Chomp(line: seq<Byte>): seq<Byte> {
    if line != [] && line[|line| - 1] == NEWLINE then line[..|line| - 1] else line
  }

  /** Python's `float` on a plain decimal, with or without a newline; any other text is a ValueError. */
  function ParseFloat(line: seq<Byte>): Option<real> {
    ParseText(Chomp(line))
  }

  /** What digits before and behind a point are worth. */
  function DecimalValue(whole: seq<Byte>, fraction: seq<Byte>): real
    requires IsDigits(whole) && IsDigits(fraction)
  {
    Number(whole) as real + ScaledDown(Number(fraction) as real, |fraction|)
  }

  function ParseText(text: seq<Byte>): Option<real> {
    var p := IndexOf(text, POINT);
    var whole := text[..p];
    var fraction := if p < |text| then text[p + 1..] else [];
    if IsDigits(whole) && IsDigits(fraction) && |whole| + |fraction| > 0
    then Some(DecimalValue(whole, fraction))
    else None
  }

  predicate HasLine(stream: seq<Byte>) {
    IndexOf(stream, NEWLINE) < |stream|
  }

  /** Python's `readline`: everything up to and including the first newline. */
  function FirstLine(stream: seq<Byte>): seq<Byte>
    requires HasLine(stream)
  {
    stream[..IndexOf(stream, NEWLINE) + 1]
  }

  function AfterLine(stream: seq<Byte>): (rest: seq<Byte>)
    requires HasLine(stream)
    ensures |rest| < |stream|
  {
    stream[IndexOf(stream, NEWLINE) + 1..]
  }

  /** The complete lines of a byte stream, each with its newline. */
  function Lines(stream: seq<Byte>): seq<seq<Byte>>
    decreases |stream|
  {
    if HasLine(stream) then [FirstLine(stream)] + Lines(AfterLine(stream)) else []
  }

  function PrintAll(vs: seq<real>): (r: seq<seq<Byte>>)
    ensures |r| == |vs|
  {
    seq(|vs|, i requires 0 <= i < |vs| => PrintSpeed(vs[i]))
  }

  // -------------------------------------------------------------- round trip

  lemma {:induction false} IndexOfUnique(s: seq<Byte>, b: Byte, i: nat)
    requires i < |s| && s[i] == b
    requires forall k :: 0 <= k < i ==> s[k] != b
    ensures IndexOf(s, b) == i
  {
    if i > 0 {
      IndexOfUnique(s[1..], b, i - 1);
    }
  }

  lemma {:induction false} IndexOfMissing(s: seq<Byte>, b: Byte)
    requires b !in s
    ensures IndexOf(s, b) == |s|
  {
    if s != [] {
      IndexOfMissing(s[1..], b);
    }
  }

  /** Whole part and fraction together are the ten-thousandths. */
  lemma PartsAddUp(v: real)
    ensures var whole := Abs(v).Floor; var fraction := ((Abs(v) - whole as real) * 10000.0).Floor;
            0 <= fraction < 10000 && 10000 * whole + fraction == TenThousandths(v)
  {
    var whole := Abs(v).Floor;
    var x := (Abs(v) - whole as real) * 10000.0;
    assert Abs(v) * 10000.0 == x + (10000 * whole) as real;
  }

  /** The printed fraction always has exactly four digits, so the line has a fixed shape. */
  lemma PrintedShape(v: real)
    ensures var line := PrintSpeed(v); var w := |line| - 6;
            && w >= 1 && IsDigits(line[..w]) && line[w] == POINT
            && IsDigits(line[w + 1..w + 5]) && line[w + 5] == NEWLINE
            && 10000 * Number(line[..w]) + Number(line[w + 1..w + 5]) == TenThousandths(v)
            && (line[0] == ZERO ==> w == 1)
  {
    hide Digits, Padded, Number;
    PartsAddUp(v);
    var whole := Abs(v).Floor;
    var fraction := ((Abs(v) - whole as real) * 10000.0).Floor;
    PaddedIsFourDigits(fraction);
    NumberOfDigits(whole);
    NoLeadingZero(whole);
    var line := PrintSpeed(v);
    assert line[0] == Digits(whole)[0];
    assert line[..|line| - 6] == Digits(whole);
    assert line[|line| - 5..|line| - 1] == Padded(fraction);
  }

  lemma PointFound(whole: seq<Byte>, fraction: seq<Byte>)
    requires IsDigits(whole)
    ensures IndexOf(whole + [POINT] + fraction, POINT) == |whole|
  {
    IndexOfUnique(whole + [POINT] + fraction, POINT, |whole|);
  }

  lemma ChompLine(text: seq<Byte>)
    ensures Chomp(text + [NEWLINE]) == text
  {
    assert (text + [NEWLINE])[..|text|] == text;
  }

  /** A text parses by its two parts, once these are known. */
  lemma ParseSplitText(text: seq<Byte>, whole: seq<Byte>, fraction: seq<Byte>)
    requires IsDigits(whole) && IsDigits(fraction) && |whole| + |fraction| > 0
    requires |whole| < |text| && IndexOf(text, POINT) == |whole|
    requires text[..|whole|] == whole && text[|whole| + 1..] == fraction
    ensures ParseText(text) == Some(DecimalValue(whole, fraction))
  {
    hide IndexOf, DecimalValue;
  }

  /** A plain decimal parses to its whole part plus its scaled fraction. */
  lemma ParseDecimal(whole: seq<Byte>, fraction: seq<Byte>)
    requires IsDigits(whole) && IsDigits(fraction) && |whole| + |fraction| > 0
    ensures ParseFloat(whole + [POINT] + fraction + [NEWLINE])
            == Some(DecimalValue(whole, fraction))
  {
    hide DecimalValue, IndexOf, Chomp, ParseText;
    var text := whole + [POINT] + fraction;
    ChompLine(text);
    PointFound(whole, fraction);
    assert text[..|whole|] == whole && text[|whole| + 1..] == fraction;
    ParseSplitText(text, whole, fraction);
  }

  lemma TruncationError(x: real)
    ensures 0.0 <= x - (x * 10000.0).Floor as real / 10000.0 < 1.0 / 10000.0
  {
    var n := (x * 10000.0).Floor as real;
    assert 0.0 <= x * 10000.0 - n < 1.0;
  }

  lemma FourPlaces(x: real)
    ensures ScaledDown(x, 4) == x / 10000.0
  {
    assert ScaledDown(x, 4) == ScaledDown(x / 10.0, 3);
    assert ScaledDown(x / 10.0, 3) == ScaledDown(x / 10.0 / 10.0, 2);
  }

  lemma ScaledSum(whole: nat, fraction: nat, n: nat)
    requires 10000 * whole + fraction == n
    ensures whole as real + fraction as real / 10000.0 == n as real / 10000.0
  {
  }

  lemma ParseParts(whole: nat, fraction: nat)
    requires fraction < 10000
    ensures ParseFloat(Digits(whole) + [POINT] + Padded(fraction) + [NEWLINE])
            == Some((10000 * whole + fraction) as real / 10000.0)
  {
    hide ParseFloat, Digits, Padded, Number, ScaledDown;
    NumberOfDigits(whole);
    PaddedIsFourDigits(fraction);
    ParseDecimal(Digits(whole), Padded(fraction));
    FourPlaces(fraction as real);
    ScaledSum(whole, fraction, 10000 * whole + fraction);
  }

  /** Parsing a printed speed gives |v| cut off after four decimals. */
  lemma ParsePrinted(v: real)
    ensures ParseFloat(PrintSpeed(v)) == Some(Truncated(v))
    ensures 0.0 <= Abs(v) - Truncated(v) < 1.0 / 10000.0
    ensures v >= 0.0 ==> 0.0 <= v - Truncated(v) < 1.0 / 10000.0
    ensures v <= 0.0 ==> 0.0 <= -v - Truncated(v) < 1.0 / 10000.0
  {
    hide ParseFloat, Digits, Padded;
    PartsAddUp(v);
    ParseParts(Abs(v).Floor, ((Abs(v) - Abs(v).Floor as real) * 10000.0).Floor);
    TruncationError(Abs(v));
  }

  /** A printed line at the front of a stream is its first line. */
  lemma FirstPrinted(v: real, rest: seq<Byte>)
    ensures HasLine(PrintSpeed(v) + rest)
    ensures FirstLine(PrintSpeed(v) + rest) == PrintSpeed(v)
    ensures AfterLine(PrintSpeed(v) + rest) == rest
  {
    hide PrintSpeed, Number;
    PrintedShape(v);
    var line := PrintSpeed(v);
    var n := |line| - 1;
    forall k | 0 <= k < n ensures (line + rest)[k] != NEWLINE {
      if k < n - 5 {
        assert line[k] == line[..n - 5][k];
      } else if k > n - 5 {
        assert line[k] == line[n - 4..n][k - (n - 4)];
      }
    }
    IndexOfUnique(line + rest, NEWLINE, n);
  }

  lemma OneLine(v: real, rest: seq<Byte>)
    ensures Lines(PrintSpeed(v) + rest) == [PrintSpeed(v)] + Lines(rest)
  {
    hide PrintSpeed, HasLine, FirstLine, AfterLine;
    FirstPrinted(v, rest);
  }

  /** Splitting any sent stream at newlines gives back the printed lines. */
  lemma {:induction false} StreamSplits(vs: seq<real>)
    ensures Lines(Flatten(PrintAll(vs))) == PrintAll(vs)
  {
    if vs != [] {
      StreamSplits(vs[1..]);
      assert PrintAll(vs)[1..] == PrintAll(vs[1..]);
      OneLine(vs[0], Flatten(PrintAll(vs[1..])));
      assert PrintAll(vs) == [PrintSpeed(vs[0])] + PrintAll(vs[1..]);
    }
  }

  /** What the reader gets from these lines before it meets one that is not a number. */
  function Received(lines: seq<seq<Byte>>): (r: seq<real>)
    ensures |r| <= |lines|
  {
    if lines == [] then [] else
      match ParseFloat(lines[0])
      case None => []
      case Some(v) => [v] + Received(lines[1..])
  }

  lemma NextReceived(line: seq<Byte>, rest: seq<seq<Byte>>)
    ensures Received([line] + rest) == match ParseFloat(line)
                                       case None => []
                                       case Some(v) => [v] + Received(rest)
  {
    hide ParseFloat;
    assert ([line] + rest)[1..] == rest;
  }

  function TruncatedAll(vs: seq<real>): (r: seq<real>)
    ensures |r| == |vs|
  {
    seq(|vs|, i requires 0 <= i < |vs| => Truncated(vs[i]))
  }

  lemma {:induction false} PrintedAreReceived(vs: seq<real>)
    ensures Received(PrintAll(vs)) == TruncatedAll(vs)
  {
    hide ParseFloat, PrintSpeed, Truncated;
    if vs != [] {
      ParsePrinted(vs[0]);
      PrintedAreReceived(vs[1..]);
      assert PrintAll(vs)[1..] == PrintAll(vs[1..]);
      assert TruncatedAll(vs) == [Truncated(vs[0])] + TruncatedAll(vs[1..]);
    }
  }

  /** Any sequence of speeds survives print, concatenation, splitting and parsing, in order and complete. */
  lemma StreamRoundTrip(vs: seq<real>)
    ensures Received(Lines(Flatten(PrintAll(vs)))) == TruncatedAll(vs)
    ensures |Lines(Flatten(PrintAll(vs)))| == |vs|
    ensures forall i :: 0 <= i < |vs| ==> 0.0 <= Abs(vs[i]) - TruncatedAll(vs)[i] < 1.0 / 10000.0
  {
    StreamSplits(vs);
    PrintedAreReceived(vs);
    forall i | 0 <= i < |vs| ensures 0.0 <= Abs(vs[i]) - TruncatedAll(vs)[i] < 1.0 / 10000.0 {
      ParsePrinted(vs[i]);
    }
  }

  // ------------------------------------------------------- what any bytes give

  /** The text is digits, or digits with one point among them, and there is at least one digit. */
  predicate DecimalParts(text: seq<Byte>, whole: seq<Byte>, fraction: seq<Byte>) {
    && IsDigits(whole) && IsDigits(fraction) && |whole| + |fraction| > 0
    && (text == whole + [POINT] + fraction || (text == whole && fraction == []))
  }

  lemma {:induction false} ScaledUp(x: real, k: nat)
    ensures ScaledDown(x, k) * Power10(k) as real == x
    decreases k
  {
    if k > 0 {
      ScaledUp(x / 10.0, k - 1);
      var y, p := ScaledDown(x, k), Power10(k - 1);
      assert y * (10.0 * p as real) == 10.0 * (y * p as real);
    }
  }

  lemma PartsValue(whole: nat, fraction: nat, scaled: real, p: nat)
    requires scaled * p as real == fraction as real
    ensures (whole as real + scaled) * p as real == (whole * p + fraction) as real
  {
    assert (whole as real + scaled) * p as real == whole as real * p as real + scaled * p as real;
    assert whole as real * p as real == (whole * p) as real;
  }

  lemma PartsParse(text: seq<Byte>, whole: seq<Byte>, fraction: seq<Byte>)
    requires DecimalParts(text, whole, fraction)
    ensures ParseText(text) == Some(DecimalValue(whole, fraction))
  {
    hide IndexOf, DecimalValue;
    if text == whole + [POINT] + fraction {
      PointFound(whole, fraction);
      assert text[..|whole|] == whole && text[|whole| + 1..] == fraction;
      ParseSplitText(text, whole, fraction);
    } else {
      IndexOfMissing(text, POINT);
      assert text[..|text|] == text;
    }
  }

  lemma SomeParts(text: seq<Byte>)
    requires ParseText(text).Some?
    ensures exists whole, fraction :: DecimalParts(text, whole, fraction)
  {
    hide IndexOf, DecimalValue;
    var p := IndexOf(text, POINT);
    var whole, fraction := text[..p], if p < |text| then text[p + 1..] else [];
    assert p < |text| ==> text == whole + [POINT] + fraction;
    assert p == |text| ==> text == whole;
    assert DecimalParts(text, whole, fraction);
  }

  /** The value of all digits, divided by ten per digit behind the point. */
  predicate Worth(value: real, whole: seq<Byte>, fraction: seq<Byte>) {
    IsDigits(whole + fraction) && value * Power10(|fraction|) as real == Number(whole + fraction) as real
  }

  lemma PartsWorth(text: seq<Byte>, whole: seq<Byte>, fraction: seq<Byte>)
    requires DecimalParts(text, whole, fraction)
    ensures ParseText(text).Some? && Worth(ParseText(text).value, whole, fraction)
  {
    hide Number, ScaledDown, Power10, ParseText;
    PartsParse(text, whole, fraction);
    NumberConcat(whole, fraction);
    var scaled := ScaledDown(Number(fraction) as real, |fraction|);
    ScaledUp(Number(fraction) as real, |fraction|);
    PartsValue(Number(whole), Number(fraction), scaled, Power10(|fraction|));
  }

  /** Exactly the plain decimals are numbers, and worth what their digits say. */
  lemma ParseExactly(text: seq<Byte>)
    ensures ParseText(text).Some? <==> exists whole, fraction :: DecimalParts(text, whole, fraction)
    ensures forall whole, fraction :: DecimalParts(text, whole, fraction)
              ==> ParseText(text).Some? && Worth(ParseText(text).value, whole, fraction)
  {
    hide Worth, DecimalParts, ParseText;
    if ParseText(text).Some? {
      SomeParts(text);
    }
    forall whole, fraction | DecimalParts(text, whole, fraction)
      ensures ParseText(text).Some? && Worth(ParseText(text).value, whole, fraction)
    {
      PartsWorth(text, whole, fraction);
    }
  }

  /** A newline at the end makes no difference. */
  lemma NewlineIgnored(text: seq<Byte>)
    requires NEWLINE !in text
    ensures ParseFloat(text + [NEWLINE]) == ParseFloat(text) == ParseText(text)
  {
    hide ParseText;
    ChompLine(text);
  }

  lemma {:induction false} BeforeIndex(s: seq<Byte>, b: Byte)
    ensures b !in s[..IndexOf(s, b)]
  {
    if s != [] && s[0] != b {
      BeforeIndex(s[1..], b);
      assert s[..IndexOf(s, b)] == [s[0]] + s[1..][..IndexOf(s[1..], b)];
    }
  }

  /** A line ends in its only newline. */
  predicate IsLine(line: seq<Byte>) {
    line != [] && line[|line| - 1] == NEWLINE && NEWLINE !in line[..|line| - 1]
  }

  /** Any bytes: the lines are the stream up to its last newline, each ends in its only newline, and none is missed. */
  lemma {:induction false} LinesExactly(stream: seq<Byte>) returns (left: seq<Byte>)
    ensures stream == Flatten(Lines(stream)) + left && NEWLINE !in left
    ensures forall i :: 0 <= i < |Lines(stream)| ==> IsLine(Lines(stream)[i])
    decreases |stream|
  {
    BeforeIndex(stream, NEWLINE);
    if HasLine(stream) {
      hide IndexOf, Flatten;
      left := LinesExactly(AfterLine(stream));
      var line, rest := FirstLine(stream), Lines(AfterLine(stream));
      assert IsLine(line) by {
        assert line[..|line| - 1] == stream[..IndexOf(stream, NEWLINE)];
      }
      LineSplit(stream);
      FlattenCons(line, rest);
      Associative(line, Flatten(rest), left);
    } else {
      left := stream;
      assert stream[..|stream|] == stream;
    }
  }

  lemma FlattenCons(line: seq<Byte>, rest: seq<seq<Byte>>)
    ensures Flatten([line] + rest) == line + Flatten(rest)
  {
    assert ([line] + rest)[1..] == rest;
  }

  /** What is received are the values of the lines, in order, up to the first that is no number. */
  lemma {:induction false} ReceivedExactly(lines: seq<seq<Byte>>)
    ensures forall i :: 0 <= i < |Received(lines)| ==> ParseFloat(lines[i]) == Some(Received(lines)[i])
    ensures |Received(lines)| < |lines| ==> ParseFloat(lines[|Received(lines)|]) == None
  {
    hide ParseFloat;
    if lines != [] {
      ReceivedExactly(lines[1..]);
    }
  }

  // ---------------------------------------------------------- partial arrival

  /** A stream is its first line followed by the rest. */
  lemma LineSplit(stream: seq<Byte>)
    requires HasLine(stream)
    ensures FirstLine(stream) + AfterLine(stream) == stream
  {
    hide IndexOf;
  }

  lemma {:induction false} IndexOfConcat(a: seq<Byte>, rest: seq<Byte>, b: Byte)
    requires IndexOf(a, b) < |a|
    ensures IndexOf(a + rest, b) == IndexOf(a, b)
  {
    if a[0] != b {
      IndexOfConcat(a[1..], rest, b);
      assert (a + rest)[1..] == a[1..] + rest;
    }
  }

  /** A line that has arrived is not changed by what arrives later. */
  lemma FirstLineStable(a: seq<Byte>, rest: seq<Byte>)
    requires HasLine(a)
    ensures HasLine(a + rest)
    ensures FirstLine(a + rest) == FirstLine(a)
    ensures AfterLine(a + rest) == AfterLine(a) + rest
  {
    hide IndexOf;
    IndexOfConcat(a, rest, NEWLINE);
  }

  lemma PrintAllCons(vs: seq<real>)
    requires vs != []
    ensures PrintAll(vs) == [PrintSpeed(vs[0])] + PrintAll(vs[1..])
    ensures Flatten(PrintAll(vs)) == PrintSpeed(vs[0]) + Flatten(PrintAll(vs[1..]))
  {
    hide PrintSpeed;
    assert PrintAll(vs)[1..] == PrintAll(vs[1..]);
  }

  /** When a sent stream has arrived in part, its complete lines are the first lines printed. */
  lemma {:induction false} ArrivedLines(vs: seq<real>, a: seq<Byte>, rest: seq<Byte>)
    requires a + rest == Flatten(PrintAll(vs))
    ensures |Lines(a)| <= |vs|
    ensures Lines(a) == PrintAll(vs[..|Lines(a)|])
  {
    hide PrintSpeed, HasLine, FirstLine, AfterLine;
    if HasLine(a) {
      FirstLineStable(a, rest);
      assert vs != [] by {
        NoLineInNothing(vs, a, rest);
      }
      PrintAllCons(vs);
      FirstPrinted(vs[0], Flatten(PrintAll(vs[1..])));
      ArrivedLines(vs[1..], AfterLine(a), rest);
      var n := |Lines(AfterLine(a))|;
      assert Lines(a) == [PrintSpeed(vs[0])] + PrintAll(vs[1..][..n]);
      assert vs[1..][..n] == vs[..n + 1][1..];
      PrintAllCons(vs[..n + 1]);
    }
  }

  lemma NoLineInNothing(vs: seq<real>, a: seq<Byte>, rest: seq<Byte>)
    requires a + rest == Flatten(PrintAll(vs)) && HasLine(a)
    ensures vs != []
  {
    assert |a| > 0;
  }

  /** What stays unread of the arrived part, with what is still under way, is what was printed after those lines. */
  lemma UnreadRemains(vs: seq<real>, a: seq<Byte>, rest: seq<Byte>, left: seq<Byte>)
    requires a + rest == Flatten(PrintAll(vs)) && a == Flatten(Lines(a)) + left
    ensures |Lines(a)| <= |vs|
    ensures left + rest == Flatten(PrintAll(vs[|Lines(a)|..]))
    ensures Received(Lines(a)) == TruncatedAll(vs[..|Lines(a)|])
  {
    hide PrintSpeed, Lines, Received, Flatten;
    ArrivedLines(vs, a, rest);
    var n := |Lines(a)|;
    var done := Flatten(Lines(a));
    PrintedAreReceived(vs[..n]);
    assert PrintAll(vs) == PrintAll(vs[..n]) + PrintAll(vs[n..]);
    FlattenConcat(PrintAll(vs[..n]), PrintAll(vs[n..]));
    assert done + (left + rest) == done + Flatten(PrintAll(vs[n..]));
    SameTail(done, left + rest, Flatten(PrintAll(vs[n..])));
  }

  lemma SameTail(a: seq<Byte>, b: seq<Byte>, c: seq<Byte>)
    requires a + b == a + c
    ensures b == c
  {
    assert (a + b)[|a|..] == b && (a + c)[|a|..] == c;
  }

  // --------------------------------------------------- joining inside a line

  /** Digits without a point parse to their number, and no digits at all to nothing. */
  lemma ParseInteger(ds: seq<Byte>)
    requires IsDigits(ds)
    ensures ParseFloat(ds + [NEWLINE]) == if ds == [] then None else Some(Number(ds) as real)
  {
    hide Chomp, IndexOf;
    ChompLine(ds);
    IndexOfMissing(ds, POINT);
    assert ds[..|ds|] == ds;
  }

  /**
   * What the rest of a printed line from byte k on parses to, told from the speed alone: a line joined before or
   * at the point loses leading digits, one joined behind it is read as an integer, and a bare newline is refused.
   */
  function Joined(v: real, k: nat): Option<real>
    requires k < |PrintSpeed(v)|
  {
    var left := |PrintSpeed(v)| - k;
    if left == 1 then None
    else if left <= 5 then Some((TenThousandths(v) % Power10(left - 1)) as real)
    else Some((TenThousandths(v) % Power10(left - 2)) as real / 10000.0)
  }

  /** All digits of a printed line in one are its ten-thousandths. */
  lemma PrintedDigits(v: real) returns (whole: seq<Byte>, fraction: seq<Byte>)
    ensures IsDigits(whole) && IsDigits(fraction) && |fraction| == 4
    ensures PrintSpeed(v) == whole + [POINT] + fraction + [NEWLINE]
    ensures IsDigits(whole + fraction) && Number(whole + fraction) == TenThousandths(v)
  {
    hide PrintSpeed, Number;
    PrintedShape(v);
    var line := PrintSpeed(v);
    var w := |line| - 6;
    whole, fraction := line[..w], line[w + 1..w + 5];
    NumberConcat(whole, fraction);
    assert Power10(2) == 100 && Power10(4) == 10000;
  }

  lemma LeadingDigitsLost(whole: seq<Byte>, fraction: seq<Byte>, k: nat)
    requires IsDigits(whole) && IsDigits(fraction) && |fraction| == 4 && k <= |whole|
    ensures IsDigits(whole[k..] + fraction)
    ensures 10000 * Number(whole[k..]) + Number(fraction) == Number(whole + fraction) % Power10(|whole| - k + 4)
  {
    hide Number;
    NumberConcat(whole[k..], fraction);
    assert Power10(2) == 100 && Power10(4) == 10000;
    assert (whole + fraction)[k..] == whole[k..] + fraction;
    LastDigits(whole + fraction, |whole| - k + 4);
  }

  lemma JoinedBeforePoint(whole: seq<Byte>, fraction: seq<Byte>, k: nat)
    requires IsDigits(whole) && IsDigits(fraction) && |fraction| == 4 && k <= |whole|
    ensures ParseFloat(whole[k..] + [POINT] + fraction + [NEWLINE])
            == Some((Number(whole + fraction) % Power10(|whole| - k + 4)) as real / 10000.0)
  {
    hide ParseFloat, Number, ScaledDown, Power10;
    ParseDecimal(whole[k..], fraction);
    FourPlaces(Number(fraction) as real);
    LeadingDigitsLost(whole, fraction, k);
    ScaledSum(Number(whole[k..]), Number(fraction), Number(whole + fraction) % Power10(|whole| - k + 4));
  }

  lemma JoinedBehindPoint(whole: seq<Byte>, fraction: seq<Byte>, n: nat)
    requires IsDigits(whole) && IsDigits(fraction) && 0 < n <= |fraction|
    ensures ParseFloat(fraction[|fraction| - n..] + [NEWLINE])
            == Some((Number(whole + fraction) % Power10(n)) as real)
  {
    hide ParseFloat, Number;
    var ds := whole + fraction;
    ParseInteger(fraction[|fraction| - n..]);
    assert ds[|ds| - n..] == fraction[|fraction| - n..];
    LastDigits(ds, n);
  }

  /** The rest of any printed line parses to just that. */
  lemma JoinedLine(v: real, k: nat)
    requires k < |PrintSpeed(v)|
    ensures ParseFloat(PrintSpeed(v)[k..]) == Joined(v, k)
    ensures ParseFloat(PrintSpeed(v)[k..]) == None <==> k == |PrintSpeed(v)| - 1
  {
    hide ParseFloat, PrintSpeed, Number, Power10, TenThousandths;
    var whole, fraction := PrintedDigits(v);
    var line := PrintSpeed(v);
    var left := |line| - k;
    if left == 1 {
      ParseInteger([]);
      assert line[k..] == [] + [NEWLINE];
    } else if left <= 5 {
      JoinedBehindPoint(whole, fraction, left - 1);
      assert line[k..] == fraction[4 - (left - 1)..] + [NEWLINE];
    } else {
      JoinedBeforePoint(whole, fraction, k);
      assert line[k..] == whole[k..] + [POINT] + fraction + [NEWLINE];
    }
  }

  /** A slow speed is read as 80 or more exactly if joined behind the point at three or four digits worth that. */
  lemma JoinedTooFast(v: real, k: nat)
    requires k < |PrintSpeed(v)| && Abs(v) < 80.0
    ensures (Joined(v, k).Some? && Joined(v, k).value >= 80.0)
            <==> var left := |PrintSpeed(v)| - k; 1 < left <= 5 && TenThousandths(v) % Power10(left - 1) >= 80
  {
    hide PrintSpeed, Power10;
    assert TenThousandths(v) < 800000;
  }

  lemma LinesCons(stream: seq<Byte>)
    requires HasLine(stream)
    ensures Lines(stream) == [FirstLine(stream)] + Lines(AfterLine(stream))
  {
    hide HasLine, FirstLine, AfterLine;
  }

  lemma JoinedFirst(v: real, k: nat, rest: seq<Byte>)
    requires k < |PrintSpeed(v)|
    ensures Lines(PrintSpeed(v)[k..] + rest) == [PrintSpeed(v)[k..]] + Lines(rest)
  {
    hide PrintSpeed, Number, Lines, IndexOf;
    var whole, fraction := PrintedDigits(v);
    var part := PrintSpeed(v)[k..];
    var n := |part| - 1;
    forall j | 0 <= j < n ensures (part + rest)[j] != NEWLINE {
      assert (part + rest)[j] == PrintSpeed(v)[k + j];
    }
    IndexOfUnique(part + rest, NEWLINE, n);
    assert FirstLine(part + rest) == part && AfterLine(part + rest) == rest;
    LinesCons(part + rest);
  }

  /** Every byte of a sent stream is byte k of some line i. */
  lemma {:induction false} JoinPlace(vs: seq<real>, j: nat) returns (i: nat, k: nat)
    requires j < |Flatten(PrintAll(vs))|
    ensures i < |vs| && k < |PrintSpeed(vs[i])| && j == |Flatten(PrintAll(vs[..i]))| + k
  {
    hide PrintSpeed;
    PrintAllCons(vs);
    var n := |PrintSpeed(vs[0])|;
    if j < n {
      i, k := 0, j;
    } else {
      i, k := JoinPlace(vs[1..], j - n);
      i := i + 1;
      PrintAllCons(vs[..i]);
      assert vs[..i][1..] == vs[1..][..i - 1];
    }
  }

  /**
   * A reader that joins the stream at byte k of line i gets the value of that rest and then every later speed, or
   * dies at once, which happens exactly at the newline of that line.
   */
  lemma JoinedStream(vs: seq<real>, i: nat, k: nat, missed: seq<Byte>, rest: seq<Byte>)
    requires i < |vs| && k < |PrintSpeed(vs[i])|
    requires missed + rest == Flatten(PrintAll(vs)) && |missed| == |Flatten(PrintAll(vs[..i]))| + k
    ensures |Lines(rest)| == |vs| - i
    ensures Received(Lines(rest)) == match Joined(vs[i], k)
                                     case None => []
                                     case Some(v) => [v] + TruncatedAll(vs[i + 1..])
    ensures |Received(Lines(rest))| < |Lines(rest)| <==> k == |PrintSpeed(vs[i])| - 1
  {
    hide PrintSpeed, Lines, Flatten, Joined, Received, ParseFloat;
    var later := vs[i + 1..];
    JoinedRest(vs, i, k, missed, rest);
    JoinedFirst(vs[i], k, Flatten(PrintAll(later)));
    StreamSplits(later);
    NextReceived(PrintSpeed(vs[i])[k..], PrintAll(later));
    JoinedLine(vs[i], k);
    PrintedAreReceived(later);
  }

  lemma JoinedRest(vs: seq<real>, i: nat, k: nat, missed: seq<Byte>, rest: seq<Byte>)
    requires i < |vs| && k < |PrintSpeed(vs[i])|
    requires missed + rest == Flatten(PrintAll(vs)) && |missed| == |Flatten(PrintAll(vs[..i]))| + k
    ensures rest == PrintSpeed(vs[i])[k..] + Flatten(PrintAll(vs[i + 1..]))
  {
    hide PrintSpeed, Flatten;
    var before, line, after := Flatten(PrintAll(vs[..i])), PrintSpeed(vs[i]), Flatten(PrintAll(vs[i + 1..]));
    assert PrintAll(vs) == PrintAll(vs[..i]) + ([line] + PrintAll(vs[i + 1..]));
    FlattenConcat(PrintAll(vs[..i]), [line] + PrintAll(vs[i + 1..]));
    PrintAllCons(vs[i..]);
    assert vs[i..][1..] == vs[i + 1..] && PrintAll(vs[i..]) == [line] + PrintAll(vs[i + 1..]);
    assert Flatten(PrintAll(vs)) == before + (line + after);
    assert rest == Flatten(PrintAll(vs))[|missed|..];
    assert (before + (line + after))[|before| + k..] == line[k..] + after;
  }

  // -------------------------------------------------------------- the two ends

  /** Both ends of the speed direction of the serial link. */
  class SpeedLink {
    var wire: seq<Byte>        // sent and still under way
    var arrived: seq<Byte>     // arrived at the Pi and not yet read
    var currentSpeed: real     // the Pi's global
    var failed: bool           // the reader thread died on a ValueError

    constructor ()
      ensures wire == [] && arrived == [] && currentSpeed == 0.0 && !failed
    {
      wire, arrived, currentSpeed, failed := [], [], 0.0, false;
    }

    /** The ESP32 side: print the magnitude in parts and write the line. */
    method SendSpeed(avgSpeed: real)
      modifies this`wire
      ensures wire == old(wire) + PrintSpeed(avgSpeed)
    {
      var tmpVal := if avgSpeed < 0.0 then -avgSpeed else avgSpeed;
      var tmpInt1 := tmpVal.Floor;
      var tmpFrac := tmpVal - tmpInt1 as real;
      var tmpInt2 := (tmpFrac * 10000.0).Floor;
      PartsAddUp(avgSpeed);
      var str := Digits(tmpInt1);
      str := str + [POINT];
      str := str + Padded(tmpInt2);
      str := str + [NEWLINE];
      wire := wire + str;
    }

    /** The line itself: up to n of the bytes under way arrive, wherever that cuts a line. */
    method Transfer(n: nat)
      modifies this`wire, this`arrived
      ensures arrived + wire == old(arrived) + old(wire)
      ensures |wire| == if n < |old(wire)| then |old(wire)| - n else 0
    {
      var k := if n < |wire| then n else |wire|;
      assert arrived + wire == (arrived + wire[..k]) + wire[k..];
      arrived, wire := arrived + wire[..k], wire[k..];
    }

    /**
     * The Pi side: read every complete line that has arrived; stop for good at text `float` refuses. Exactly
     * the lines read are taken away, so an incomplete line waits for its rest.
     */
    method ReadSpeeds() returns (speeds: seq<real>)
      requires !failed
      modifies this`arrived, this`currentSpeed, this`failed
      ensures speeds == Received(Lines(old(arrived)))
      ensures failed <==> |speeds| < |Lines(old(arrived))|
      ensures var taken := |speeds| + (if failed then 1 else 0);
              old(arrived) == Flatten(Lines(old(arrived))[..taken]) + arrived
      ensures currentSpeed == if speeds == [] then old(currentSpeed) else speeds[|speeds| - 1]
      ensures !failed ==> Lines(arrived) == []
    {
      hide ParseFloat, Received, HasLine, FirstLine, AfterLine, Flatten, Lines;
      speeds := [];
      ghost var taken: seq<seq<Byte>> := [];
      NothingTaken(arrived);
      while HasLine(arrived)
        invariant !failed && |taken| == |speeds|
        invariant Lines(old(arrived)) == taken + Lines(arrived)
        invariant old(arrived) == Flatten(taken) + arrived
        invariant speeds + Received(Lines(arrived)) == Received(Lines(old(arrived)))
        invariant currentSpeed == if speeds == [] then old(currentSpeed) else speeds[|speeds| - 1]
        decreases |arrived|
      {
        var line := FirstLine(arrived);
        ghost var rest := Lines(AfterLine(arrived));
        TakeLine(taken, arrived);
        NextReceived(line, rest);
        arrived := AfterLine(arrived);
        taken := taken + [line];
        match ParseFloat(line)
        case None =>
          failed := true;
          assert speeds + [] == speeds;
          assert Lines(old(arrived))[..|taken|] == taken;
          return;
        case Some(v) =>
          currentSpeed := v;
          assert speeds + ([v] + Received(rest)) == (speeds + [v]) + Received(rest);
          speeds := speeds + [v];
      }
      NoMoreLines(arrived);
      assert speeds + [] == speeds && taken + [] == taken;
    }
  }

  lemma NothingTaken(stream: seq<Byte>)
    ensures stream == Flatten([]) + stream
    ensures Lines(stream) == [] + Lines(stream)
  {
  }

  lemma NoMoreLines(stream: seq<Byte>)
    requires !HasLine(stream)
    ensures Lines(stream) == [] && Received(Lines(stream)) == []
  {
  }

  /** Moving the first line from the stream to what was taken loses nothing. */
  lemma TakeLine(taken: seq<seq<Byte>>, stream: seq<Byte>)
    requires HasLine(stream)
    ensures Lines(stream) == [FirstLine(stream)] + Lines(AfterLine(stream))
    ensures taken + Lines(stream) == (taken + [FirstLine(stream)]) + Lines(AfterLine(stream))
    ensures Flatten(taken) + stream == Flatten(taken + [FirstLine(stream)]) + AfterLine(stream)
  {
    hide HasLine, FirstLine, AfterLine, Flatten;
    LineSplit(stream);
    FlattenSnoc(taken, FirstLine(stream));
  }

  /** What can happen on the link: a speed is sent, some bytes arrive, the reader reads. */
  datatype LinkEvent = Send(speed: real) | Arrive(count: nat) | Read

  function Sent(events: seq<LinkEvent>): seq<real> {
    if events == [] then [] else
      var e := events[|events| - 1];
      Sent(events[..|events| - 1]) + (if e.Send? then [e.speed] else [])
  }

  /** One read in the middle of a session: the reader stays alive and gets the next printed speeds. */
  method ReadInSession(link: SpeedLink, ghost sent: seq<real>, before: seq<real>) returns (received: seq<real>)
    requires !link.failed && |before| <= |sent| && before == TruncatedAll(sent[..|before|])
    requires link.arrived + link.wire == Flatten(PrintAll(sent[|before|..]))
    modifies link`arrived, link`currentSpeed, link`failed
    ensures !link.failed && |received| <= |sent| && received == TruncatedAll(sent[..|received|])
    ensures link.arrived + link.wire == Flatten(PrintAll(sent[|received|..]))
    ensures before <= received
    ensures link.wire == [] ==> |received| == |sent|
  {
    hide PrintSpeed, Lines, Received, Flatten, PrintAll;
    ghost var all := link.arrived;
    ghost var vs := sent[|before|..];
    var speeds := link.ReadSpeeds();
    received := before + speeds;
    ghost var n := |Lines(all)|;
    ArrivedLines(vs, all, link.wire);
    PrintedAreReceived(vs[..n]);
    assert Lines(all)[..n] == Lines(all);
    UnreadRemains(vs, all, link.wire, link.arrived);
    assert vs[n..] == sent[|received|..];
    assert sent[..|received|] == sent[..|before|] + vs[..n];
    if link.wire == [] {
      assert all + [] == all;
      StreamSplits(vs);
    }
  }

  /**
   * Any session: speeds sent, bytes arriving and reads interleaved in any way, lines arriving in pieces. What has
   * been received is at any time the first speeds sent, cut off after four decimals, and the reader never dies;
   * once the rest has arrived and is read, all speeds are there.
   */
  method Session(events: seq<LinkEvent>) returns (early: seq<real>, received: seq<real>, alive: bool)
    ensures alive && received == TruncatedAll(Sent(events))
    ensures early <= received
  {
    hide PrintSpeed, Lines, Received, Flatten, PrintAll;
    var link := new SpeedLink();
    early := [];
    ghost var sent: seq<real> := [];
    NothingSent();
    for k := 0 to |events|
      invariant !link.failed && sent == Sent(events[..k])
      invariant |early| <= |sent| && early == TruncatedAll(sent[..|early|])
      invariant link.arrived + link.wire == Flatten(PrintAll(sent[|early|..]))
    {
      assert events[..k + 1][..k] == events[..k];
      match events[k]
      case Send(v) =>
        link.SendSpeed(v);
        SentOneMore(sent, |early|, v);
        sent := sent + [v];
      case Arrive(n) => link.Transfer(n);
      case Read => early := ReadInSession(link, sent, early);
    }
    assert events[..|events|] == events;
    link.Transfer(|link.wire|);
    received := ReadInSession(link, sent, early);
    assert sent[..|received|] == sent;
    alive := !link.failed;
  }

  lemma NothingSent()
    ensures Flatten(PrintAll([])) == []
  {
  }

  lemma SentOneMore(sent: seq<real>, k: nat, v: real)
    requires k <= |sent|
    ensures Flatten(PrintAll((sent + [v])[k..])) == Flatten(PrintAll(sent[k..])) + PrintSpeed(v)
    ensures (sent + [v])[..k] == sent[..k]
  {
    hide PrintSpeed, Flatten;
    assert PrintAll((sent + [v])[k..]) == PrintAll(sent[k..]) + [PrintSpeed(v)];
    FlattenSnoc(PrintAll(sent[k..]), PrintSpeed(v));
  }
}
