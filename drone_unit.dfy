/**
 * One telemetry sample (the DroneUnit struct) and its fixed-layout text line
 * codec (DroneUnitSerializer.Parse and DroneUnitSerializer.Stringify).
 *
 * A line holds sixteen comma-separated fields in a fixed order. The conversion
 * of a single field between text and number (int.Parse, long.Parse,
 * float.Parse, double.Parse and the matching ToString calls) depends on the
 * culture and on floating point, so it is not modelled: a NumberFormat value
 * carries it as partial functions the codec is parameterised by.
 */
module Units {
  import opened Wrappers
  import opened Text

  /** One sample. `float` and `double` fields are modelled as reals, `int` and `long` as integers. */
  datatype DroneUnit = DroneUnit(
    index: int, unixTime: int,
    pitch: real, yaw: real, roll: real,
    accX: real, accY: real, accZ: real,
    magX: real, magY: real, magZ: real,
    lat: real, lng: real,
    alt: real, temp: real, pressure: real)

  /** Number of fields on a wire line. */
  const FieldCount: nat := 16

  /** The C# type of a field, which decides which conversion reads and writes it. */
  datatype Kind = Int32 | Int64 | Single | Double

  /**
   * The wire order: index, unixTime, pitch, yaw, roll, accX, accY, accZ,
   * magX, magY, magZ, lat, lng, alt, temp, pressure.
   */
  const Layout: seq<Kind> := [
    Int32, Int64,
    Single, Single, Single,
    Single, Single, Single,
    Single, Single, Single,
    Double, Double,
    Single, Single, Single]

  /** A field value: integral for `int`/`long` fields, real for `float`/`double` fields. */
  datatype Num = Whole(w: int) | Fraction(f: real)

  predicate HasKind(n: Num, kind: Kind) {
    match kind
    case Int32 | Int64 => n.Whole?
    case Single | Double => n.Fraction?
  }

  /** Field `k` of a sample, in wire order; its shape agrees with Layout[k]. */
  function FieldOf(u: DroneUnit, k: nat): (n: Num)
    requires k < FieldCount
    ensures HasKind(n, Layout[k])
  {
    match k
    case 0 => Whole(u.index)
    case 1 => Whole(u.unixTime)
    case 2 => Fraction(u.pitch)
    case 3 => Fraction(u.yaw)
    case 4 => Fraction(u.roll)
    case 5 => Fraction(u.accX)
    case 6 => Fraction(u.accY)
    case 7 => Fraction(u.accZ)
    case 8 => Fraction(u.magX)
    case 9 => Fraction(u.magY)
    case 10 => Fraction(u.magZ)
    case 11 => Fraction(u.lat)
    case 12 => Fraction(u.lng)
    case 13 => Fraction(u.alt)
    case 14 => Fraction(u.temp)
    case 15 => Fraction(u.pressure)
  }

  predicate WellKinded(vals: seq<Num>) {
    |vals| == FieldCount && forall k :: 0 <= k < FieldCount ==> HasKind(vals[k], Layout[k])
  }

  /** The sample whose k-th field is vals[k] (the object initializer in Parse). */
  function Assemble(vals: seq<Num>): (u: DroneUnit)
    requires WellKinded(vals)
    ensures forall k :: 0 <= k < FieldCount ==> FieldOf(u, k) == vals[k]
  {
    assert HasKind(vals[0], Layout[0]) && HasKind(vals[1], Layout[1]);
    assert forall k :: 2 <= k < FieldCount ==> Layout[k] == Single || Layout[k] == Double;
    DroneUnit(
      vals[0].w, vals[1].w,
      vals[2].f, vals[3].f, vals[4].f,
      vals[5].f, vals[6].f, vals[7].f,
      vals[8].f, vals[9].f, vals[10].f,
      vals[11].f, vals[12].f,
      vals[13].f, vals[14].f, vals[15].f)
  }

  /** A sample is determined by its sixteen fields. */
  lemma AssembleFields(u: DroneUnit)
    ensures WellKinded(seq(FieldCount, k requires 0 <= k < FieldCount => FieldOf(u, k)))
    ensures Assemble(seq(FieldCount, k requires 0 <= k < FieldCount => FieldOf(u, k))) == u
  {
    var vals := seq(FieldCount, k requires 0 <= k < FieldCount => FieldOf(u, k));
    var v := Assemble(vals);
    assert FieldOf(v, 0) == FieldOf(u, 0) && FieldOf(v, 1) == FieldOf(u, 1);
    assert FieldOf(v, 2) == FieldOf(u, 2) && FieldOf(v, 3) == FieldOf(u, 3);
    assert FieldOf(v, 4) == FieldOf(u, 4) && FieldOf(v, 5) == FieldOf(u, 5);
    assert FieldOf(v, 6) == FieldOf(u, 6) && FieldOf(v, 7) == FieldOf(u, 7);
    assert FieldOf(v, 8) == FieldOf(u, 8) && FieldOf(v, 9) == FieldOf(u, 9);
    assert FieldOf(v, 10) == FieldOf(u, 10) && FieldOf(v, 11) == FieldOf(u, 11);
    assert FieldOf(v, 12) == FieldOf(u, 12) && FieldOf(v, 13) == FieldOf(u, 13);
    assert FieldOf(v, 14) == FieldOf(u, 14) && FieldOf(v, 15) == FieldOf(u, 15);
  }

  /**
   * `new DroneUnit(idx, time)`: the given index and time stamp, every sensor
   * field zero. The DateTime-to-Unix-seconds conversion is done by the caller.
   */
  function NewUnit(idx: int, time: int): (u: DroneUnit)
    ensures FieldOf(u, 0) == Whole(idx) && FieldOf(u, 1) == Whole(time)
    ensures forall k :: 2 <= k < FieldCount ==> FieldOf(u, k) == Fraction(0.0)
  {
    DroneUnit(idx, time, 0.0, 0.0, 0.0, 0.0, 0.0, 0.0, 0.0, 0.0, 0.0, 0.0, 0.0, 0.0, 0.0, 0.0)
  }

  /**
   * DroneUnitSerializer.Random(idx, seed): a sample with index `idx` and
   * randomly perturbed sensor values. The random draw, the seed arithmetic
   * and the clock are not modelled: `drawn` stands for whatever the generator
   * produced, and only the index is fixed by the caller.
   */
  function Random(idx: int, drawn: DroneUnit): (u: DroneUnit)
    ensures FieldOf(u, 0) == Whole(idx)
    ensures forall k :: 1 <= k < FieldCount ==> FieldOf(u, k) == FieldOf(drawn, k)
  {
    drawn.(index := idx)
  }

  /**
   * The culture-dependent conversions between one field's text and its value.
   * A parse function answers None where the C# call throws.
   */
  datatype NumberFormat = NumberFormat(
    parseInt: string -> Option<int>,
    parseLong: string -> Option<int>,
    parseFloat: string -> Option<real>,
    parseDouble: string -> Option<real>,
    intText: int -> string,
    longText: int -> string,
    floatText: real -> string,
    doubleText: real -> string)

  /** Reads one field's text as a value of the given kind. */
  function Read(fmt: NumberFormat, kind: Kind, text: string): (r: Option<Num>)
    ensures r.Some? ==> HasKind(r.value, kind)
  {
    match kind
    case Int32 => (match fmt.parseInt(text) case Some(v) => Some(Whole(v)) case None => None)
    case Int64 => (match fmt.parseLong(text) case Some(v) => Some(Whole(v)) case None => None)
    case Single => (match fmt.parseFloat(text) case Some(v) => Some(Fraction(v)) case None => None)
    case Double => (match fmt.parseDouble(text) case Some(v) => Some(Fraction(v)) case None => None)
  }

  /** Writes one field's value with the ToString of the field's C# type. */
  function Show(fmt: NumberFormat, kind: Kind, n: Num): (text: string)
    ensures n.Whole? && kind == Int32 ==> text == fmt.intText(n.w)
    ensures n.Whole? && kind == Int64 ==> text == fmt.longText(n.w)
    ensures n.Fraction? && kind == Single ==> text == fmt.floatText(n.f)
    ensures n.Fraction? && kind == Double ==> text == fmt.doubleText(n.f)
  {
    match n
    case Whole(v) => if kind == Int32 then fmt.intText(v) else fmt.longText(v)
    case Fraction(v) => if kind == Double then fmt.doubleText(v) else fmt.floatText(v)
  }

  /** Why a line was refused: `units[at]` was out of range, or its text did not convert. */
  datatype ParseError = MissingField(at: nat) | BadNumber(at: nat)

  /** Field `k` is present and its text converts. */
  predicate FieldReads(fmt: NumberFormat, fields: seq<string>, k: nat)
    requires k < FieldCount
  {
    k < |fields| && Read(fmt, Layout[k], fields[k]).Some?
  }

  /**
   * `e` is the first failure met when fields from, from + 1, ... are read in
   * order: every earlier field reads, and at `e.at` the field is either
   * missing (the line ran out) or does not convert.
   */
  predicate FirstFailureFrom(fmt: NumberFormat, fields: seq<string>, from: nat, e: ParseError) {
    && from <= e.at < FieldCount
    && (forall j :: from <= j < e.at ==> FieldReads(fmt, fields, j))
    && match e
       case MissingField(at) => at >= |fields|
       case BadNumber(at) => at < |fields| && Read(fmt, Layout[at], fields[at]).None?
  }

  /**
   * Reads fields |acc|..15 in order after the values `acc` already read,
   * stopping at the first field that is missing or does not convert (the C#
   * object initializer evaluates `units[k]` and then its conversion, field by
   * field).
   */
  function ReadFrom(fmt: NumberFormat, fields: seq<string>, acc: seq<Num>): (r: Result<seq<Num>, ParseError>)
    requires |acc| <= FieldCount
    requires forall j :: 0 <= j < |acc| ==> j < |fields| && Read(fmt, Layout[j], fields[j]) == Some(acc[j])
    decreases FieldCount - |acc|
    ensures r.Success? <==> forall j :: |acc| <= j < FieldCount ==> FieldReads(fmt, fields, j)
    ensures r.Success? ==> |r.value| == FieldCount <= |fields|
    ensures r.Success? ==> forall j :: 0 <= j < FieldCount ==> Read(fmt, Layout[j], fields[j]) == Some(r.value[j])
    ensures r.Failure? ==> FirstFailureFrom(fmt, fields, |acc|, r.error)
  {
    var k := |acc|;
    if k == FieldCount then
      assert Read(fmt, Layout[k - 1], fields[k - 1]) == Some(acc[k - 1]);
      Success(acc)
    else if k >= |fields| then
      assert !FieldReads(fmt, fields, k);
      Failure(MissingField(k))
    else match Read(fmt, Layout[k], fields[k])
      case None =>
        assert !FieldReads(fmt, fields, k);
        Failure(BadNumber(k))
      case Some(v) =>
        var next := acc + [v];
        assert forall j :: 0 <= j < |next| ==> j < |fields| && Read(fmt, Layout[j], fields[j]) == Some(next[j]);
        ReadFrom(fmt, fields, next)
  }

  /**
   * Maps split fields to a sample: success exactly when the first sixteen
   * fields are present and all convert, and then field k of the sample is
   * what field k's text reads as; otherwise the first failure in wire order.
   */
  function ParseFields(fmt: NumberFormat, fields: seq<string>): (r: Result<DroneUnit, ParseError>)
    ensures r.Success? <==> |fields| >= FieldCount && forall k :: 0 <= k < FieldCount ==> FieldReads(fmt, fields, k)
    ensures r.Success? ==> forall k :: 0 <= k < FieldCount ==> Read(fmt, Layout[k], fields[k]) == Some(FieldOf(r.value, k))
    ensures r.Failure? ==> FirstFailureFrom(fmt, fields, 0, r.error)
    ensures r.Failure? && r.error.MissingField? ==> r.error.at == |fields| < FieldCount
  {
    match ReadFrom(fmt, fields, [])
    case Failure(e) =>
      assert e.MissingField? && e.at > |fields| ==> FieldReads(fmt, fields, |fields|);
      Failure(e)
    case Success(vals) =>
      assert FieldReads(fmt, fields, FieldCount - 1);
      assert WellKinded(vals) by {
        forall k | 0 <= k < FieldCount ensures HasKind(vals[k], Layout[k]) {
          assert Read(fmt, Layout[k], fields[k]) == Some(vals[k]);
        }
      }
      Success(Assemble(vals))
  }

  /** The fields of a line: trimmed at both ends, spaces removed, split on ','. */
  function WireFields(line: string): (fields: seq<string>)
    ensures |fields| == Count(RemoveChar(Trim(line), ' '), ',') + 1
    ensures forall k :: 0 <= k < |fields| ==> ' ' !in fields[k] && ',' !in fields[k]
    ensures Join(fields, ',') == RemoveChar(Trim(line), ' ')
  {
    var fields := Split(RemoveChar(Trim(line), ' '), ',');
    JoinSplit(RemoveChar(Trim(line), ' '), ',');
    forall k | 0 <= k < |fields| ensures ' ' !in fields[k] {
      JoinHasFields(fields, ',', k);
    }
    fields
  }

  /**
   * DroneUnitSerializer.Parse. A line with fewer than fifteen commas after
   * normalisation has fewer than sixteen fields and is refused.
   */
  function Parse(fmt: NumberFormat, line: string): (r: Result<DroneUnit, ParseError>)
    ensures Count(RemoveChar(Trim(line), ' '), ',') < FieldCount - 1 ==> r.Failure?
    ensures r.Success? <==> forall k :: 0 <= k < FieldCount ==> FieldReads(fmt, WireFields(line), k)
    ensures r.Success? ==> forall k :: 0 <= k < FieldCount ==>
      Read(fmt, Layout[k], WireFields(line)[k]) == Some(FieldOf(r.value, k))
  {
    ParseFields(fmt, WireFields(line))
  }

  /** The sixteen field texts of a sample, in wire order. */
  function FieldTexts(fmt: NumberFormat, u: DroneUnit): (texts: seq<string>)
    ensures |texts| == FieldCount
    ensures forall k :: 0 <= k < FieldCount ==> texts[k] == Show(fmt, Layout[k], FieldOf(u, k))
  {
    seq(FieldCount, k requires 0 <= k < FieldCount => Show(fmt, Layout[k], FieldOf(u, k)))
  }

  /** DroneUnitSerializer.Stringify: the field texts joined with ','. */
  function Stringify(fmt: NumberFormat, u: DroneUnit): (line: string)
    ensures Count(line, ',') == FieldCount - 1 + SumCounts(FieldTexts(fmt, u), ',')
  {
    JoinCount(FieldTexts(fmt, u), ',');
    Join(FieldTexts(fmt, u), ',')
  }

  /** Every character of a field also occurs in the joined line. */
  lemma {:induction false} JoinHasFields(fields: seq<string>, sep: char, k: nat)
    requires k < |fields|
    ensures forall c :: c in fields[k] ==> c in Join(fields, sep)
  {
    if |fields| > 1 {
      if k > 0 {
        JoinHasFields(fields[1..], sep, k - 1);
      }
      assert Join(fields, sep) == fields[0] + ([sep] + Join(fields[1..], sep));
    }
  }

  /** Every character of a joined line is the separator or a character of some field. */
  lemma {:induction false} JoinChars(fields: seq<string>, sep: char, i: nat)
    requires i < |Join(fields, sep)|
    ensures Join(fields, sep)[i] == sep || exists k :: 0 <= k < |fields| && Join(fields, sep)[i] in fields[k]
  {
    if |fields| == 1 {
      assert Join(fields, sep)[i] in fields[0];
    } else if |fields| > 1 {
      var f := fields[0];
      var line := Join(fields, sep);
      var tail := Join(fields[1..], sep);
      assert line == f + [sep] + tail;
      if i < |f| {
        assert line[i] in fields[0];
      } else if i > |f| {
        JoinChars(fields[1..], sep, i - |f| - 1);
        assert line[i] == tail[i - |f| - 1];
        if tail[i - |f| - 1] != sep {
          var k :| 0 <= k < |fields[1..]| && tail[i - |f| - 1] in fields[1..][k];
          assert line[i] in fields[k + 1];
        }
      }
    }
  }

  /** Splitting Stringify's output gives back every field's text in position. */
  lemma StringifySplits(fmt: NumberFormat, u: DroneUnit)
    requires forall k :: 0 <= k < FieldCount ==> ',' !in FieldTexts(fmt, u)[k]
    ensures Split(Stringify(fmt, u), ',') == FieldTexts(fmt, u)
  {
    SplitJoin(FieldTexts(fmt, u), ',');
  }

  /**
   * Parse reads Stringify's output field by field: provided no field text
   * holds ',' or ' ' and the line neither starts nor ends with a trimmed
   * character, the result is what parsing the sixteen texts gives, so each
   * field is read from its own text.
   */
  lemma ParseStringify(fmt: NumberFormat, u: DroneUnit)
    requires forall k :: 0 <= k < FieldCount ==> ',' !in FieldTexts(fmt, u)[k] && ' ' !in FieldTexts(fmt, u)[k]
    requires CleanEnds(Stringify(fmt, u))
    ensures WireFields(Stringify(fmt, u)) == FieldTexts(fmt, u)
    ensures Parse(fmt, Stringify(fmt, u)) == ParseFields(fmt, FieldTexts(fmt, u))
  {
    var texts := FieldTexts(fmt, u);
    var line := Stringify(fmt, u);
    assert ' ' !in line by {
      forall i | 0 <= i < |line| ensures line[i] != ' ' {
        JoinChars(texts, ',', i);
      }
    }
    RemoveCharAbsent(Trim(line), ' ');
    assert RemoveChar(Trim(line), ' ') == line;
    StringifySplits(fmt, u);
  }

  /** A field text that survives the wire untouched: no separator, no trimmed or removed character. */
  predicate WireSafe(text: string) {
    forall i :: 0 <= i < |text| ==> text[i] != ',' && !IsTrimChar(text[i])
  }

  /**
   * The round trip: when every field text is wire-safe and the format reads
   * back what it writes, Parse(Stringify(u)) gives back `u`.
   */
  lemma RoundTrip(fmt: NumberFormat, u: DroneUnit)
    requires forall k :: 0 <= k < FieldCount ==> WireSafe(FieldTexts(fmt, u)[k])
    requires forall k :: 0 <= k < FieldCount ==>
      Read(fmt, Layout[k], Show(fmt, Layout[k], FieldOf(u, k))) == Some(FieldOf(u, k))
    ensures Parse(fmt, Stringify(fmt, u)) == Success(u)
  {
    var texts := FieldTexts(fmt, u);
    var line := Stringify(fmt, u);
    forall k | 0 <= k < FieldCount
      ensures ',' !in texts[k] && ' ' !in texts[k]
    {
      assert WireSafe(texts[k]);
    }
    assert CleanEnds(line) by {
      if line != [] {
        JoinChars(texts, ',', 0);
        JoinChars(texts, ',', |line| - 1);
        forall k, c | 0 <= k < FieldCount && c in texts[k] ensures !IsTrimChar(c) {
          assert WireSafe(texts[k]);
        }
      }
    }
    ParseStringify(fmt, u);
    var r := ParseFields(fmt, texts);
    assert r.Success?;
    forall k | 0 <= k < FieldCount ensures FieldOf(r.value, k) == FieldOf(u, k) {
      assert Read(fmt, Layout[k], texts[k]) == Some(FieldOf(r.value, k));
    }
    FieldsDetermineUnit(r.value, u);
  }

  /** Two samples that agree on all sixteen fields are equal. */
  lemma FieldsDetermineUnit(a: DroneUnit, b: DroneUnit)
    requires forall k :: 0 <= k < FieldCount ==> FieldOf(a, k) == FieldOf(b, k)
    ensures a == b
  {
    assert FieldOf(a, 0) == FieldOf(b, 0) && FieldOf(a, 1) == FieldOf(b, 1);
    assert FieldOf(a, 2) == FieldOf(b, 2) && FieldOf(a, 3) == FieldOf(b, 3);
    assert FieldOf(a, 4) == FieldOf(b, 4) && FieldOf(a, 5) == FieldOf(b, 5);
    assert FieldOf(a, 6) == FieldOf(b, 6) && FieldOf(a, 7) == FieldOf(b, 7);
    assert FieldOf(a, 8) == FieldOf(b, 8) && FieldOf(a, 9) == FieldOf(b, 9);
    assert FieldOf(a, 10) == FieldOf(b, 10) && FieldOf(a, 11) == FieldOf(b, 11);
    assert FieldOf(a, 12) == FieldOf(b, 12) && FieldOf(a, 13) == FieldOf(b, 13);
    assert FieldOf(a, 14) == FieldOf(b, 14) && FieldOf(a, 15) == FieldOf(b, 15);
  }

  /** Fields after the sixteenth are ignored: reading stops at field 15. */
  lemma {:induction false} ReadFromIgnoresExtra(fmt: NumberFormat, fields: seq<string>, acc: seq<Num>)
    requires |acc| <= FieldCount <= |fields|
    requires forall j :: 0 <= j < |acc| ==> j < |fields| && Read(fmt, Layout[j], fields[j]) == Some(acc[j])
    decreases FieldCount - |acc|
    ensures ReadFrom(fmt, fields, acc) == ReadFrom(fmt, fields[..FieldCount], acc)
  {
    var k := |acc|;
    if k < FieldCount {
      assert fields[..FieldCount][k] == fields[k];
      match Read(fmt, Layout[k], fields[k])
      case None =>
      case Some(v) => ReadFromIgnoresExtra(fmt, fields, acc + [v]);
    }
  }

  /** Parsing a field list depends only on its first sixteen fields. */
  lemma ParseIgnoresExtraFields(fmt: NumberFormat, fields: seq<string>)
    requires |fields| >= FieldCount
    ensures ParseFields(fmt, fields) == ParseFields(fmt, fields[..FieldCount])
  {
    ReadFromIgnoresExtra(fmt, fields, []);
  }
}
