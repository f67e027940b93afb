/**
 * Field extraction from a queued message body (ima/app.py:146-150):
 *
 *   partes = body.split(", ")
 *   data, hora, uuid, nome = partes[k].split(": ")[1]   for k = 0 .. 3
 *
 * Every `IndexError` Python would raise becomes `None`.
 */
module Message {

  import opened Wrappers
  import opened Text

  /** Separator between the labelled parts of a body. */
  const PartSeparator: string := ", "

  /** Separator between a part's key and its value. */
  const LabelSeparator: string := ": "

  /** The four values taken from a body, in wire order. */
  datatype Fields = Fields(data: string, hora: string, uuid: string, nome: string)

  /** `part.split(": ")[1]`; `None` where indexing raises `IndexError`. */
  function Value(part: string): (v: Option<string>)
    ensures v.Some? <==> Contains(part, LabelSeparator)
  {
    var pieces := Split(part, LabelSeparator);
    SplitHasSecondPart(part, LabelSeparator);
    if |pieces| >= 2 then Some(pieces[1]) else None
  }

  /** The extraction at ima/app.py:146-150; `None` when any step raises. */
  function Extract(body: string): Option<Fields>
  {
    var parts := Split(body, PartSeparator);
    if |parts| < 4 then None
    else
      match (Value(parts[0]), Value(parts[1]), Value(parts[2]), Value(parts[3]))
      case (Some(data), Some(hora), Some(uuid), Some(nome)) => Some(Fields(data, hora, uuid, nome))
      case _ => None
  }

  /**
   * Reference reading of `part.split(": ")[1]` through `str.find`: the text
   * after the first `": "`, up to the next `": "` or the end of the part.
   */
  function TextAfterLabel(part: string): Option<string>
  {
    match Find(part, LabelSeparator)
    case None => None
    case Some(i) =>
      var rest := part[i + |LabelSeparator|..];
      match Find(rest, LabelSeparator)
      case None => Some(rest)
      case Some(j) => Some(rest[..j])
  }

  /** A value is the text between the first and the second `": "` of its part. */
  lemma ValueIsTextAfterLabel(part: string)
    ensures Value(part) == TextAfterLabel(part)
  {
    match Find(part, LabelSeparator)
    case None =>
      SplitWithout(part, LabelSeparator);
    case Some(i) =>
      SplitAtFirst(part, LabelSeparator, i);
      var rest := part[i + |LabelSeparator|..];
      match Find(rest, LabelSeparator)
      case None =>
        SplitWithout(rest, LabelSeparator);
      case Some(j) =>
        SplitAtFirst(rest, LabelSeparator, j);
  }

  /**
   * Extraction succeeds exactly when the body has at least four parts and
   * each of the first four holds a `": "`; the fields are then the text
   * after the first key separator of parts 0 to 3.
   */
  lemma ExtractSucceedsIff(body: string)
    ensures var parts := Split(body, PartSeparator);
      Extract(body).Some? <==>
        |parts| >= 4 &&
        Contains(parts[0], LabelSeparator) && Contains(parts[1], LabelSeparator) &&
        Contains(parts[2], LabelSeparator) && Contains(parts[3], LabelSeparator)
    ensures var parts := Split(body, PartSeparator);
      Extract(body).Some? ==>
        Some(Extract(body).value.data) == TextAfterLabel(parts[0]) &&
        Some(Extract(body).value.hora) == TextAfterLabel(parts[1]) &&
        Some(Extract(body).value.uuid) == TextAfterLabel(parts[2]) &&
        Some(Extract(body).value.nome) == TextAfterLabel(parts[3])
  {
    var parts := Split(body, PartSeparator);
    if |parts| >= 4 {
      ValueIsTextAfterLabel(parts[0]);
      ValueIsTextAfterLabel(parts[1]);
      ValueIsTextAfterLabel(parts[2]);
      ValueIsTextAfterLabel(parts[3]);
    }
  }

  /** Parts after the fourth play no role: appending more parts changes nothing. */
  lemma ExtractIgnoresExtraParts(body: string, more: string)
    requires |Split(body, PartSeparator)| >= 4
    ensures Extract(body + PartSeparator + more) == Extract(body)
  {
    assert Unbordered(PartSeparator);
    SplitAppend(body, PartSeparator, more);
  }

  /** A key or value that the wire format can carry: it holds neither separator. */
  predicate Plain(s: string)
  {
    !Contains(s, PartSeparator) && !Contains(s, LabelSeparator)
  }

  /** One labelled part, `key: value`. */
  function Part(key: string, value: string): string
  {
    key + LabelSeparator + value
  }

  /** A body carrying the four fields under the given labels. */
  function Render(labels: seq<string>, f: Fields): string
    requires |labels| == 4
  {
    Join([Part(labels[0], f.data), Part(labels[1], f.hora),
          Part(labels[2], f.uuid), Part(labels[3], f.nome)], PartSeparator)
  }

  /** The body the system's producers send: `Data: …, Hora: …, Uuid: …, Nome: …`. */
  function WireFormat(f: Fields): string
  {
    Render(["Data", "Hora", "Uuid", "Nome"], f)
  }

  /** A labelled part of plain strings splits back into its key and value. */
  lemma PartRoundTrip(key: string, value: string)
    requires Plain(key) && Plain(value)
    ensures Value(Part(key, value)) == Some(value)
    ensures !Contains(Part(key, value), PartSeparator)
  {
    assert Unbordered(LabelSeparator);
    SplitAppend(key, LabelSeparator, value);
    SplitWithout(key, LabelSeparator);
    SplitWithout(value, LabelSeparator);
    NotContainsWithoutChar(LabelSeparator, PartSeparator, 0);
    NotContainsConcat(key, LabelSeparator, PartSeparator);
    NotContainsConcat(key + LabelSeparator, value, PartSeparator);
  }

  /**
   * Round trip: whatever the labels, a body rendered from plain labels and
   * values extracts to exactly those values, so labels are never checked.
   */
  lemma ExtractRender(labels: seq<string>, f: Fields)
    requires |labels| == 4 && forall k :: 0 <= k < 4 ==> Plain(labels[k])
    requires Plain(f.data) && Plain(f.hora) && Plain(f.uuid) && Plain(f.nome)
    ensures Extract(Render(labels, f)) == Some(f)
  {
    assert Plain(labels[0]) && Plain(labels[1]) && Plain(labels[2]) && Plain(labels[3]);
    var p0, p1 := Part(labels[0], f.data), Part(labels[1], f.hora);
    var p2, p3 := Part(labels[2], f.uuid), Part(labels[3], f.nome);
    PartRoundTrip(labels[0], f.data);
    PartRoundTrip(labels[1], f.hora);
    PartRoundTrip(labels[2], f.uuid);
    PartRoundTrip(labels[3], f.nome);
    SplitFourParts(p0, p1, p2, p3);
    ExtractFromParts(Render(labels, f), [p0, p1, p2, p3], f);
  }

  /** Four parts free of `", "`, joined by it, split back into themselves. */
  lemma SplitFourParts(p0: string, p1: string, p2: string, p3: string)
    requires !Contains(p0, PartSeparator) && !Contains(p1, PartSeparator)
    requires !Contains(p2, PartSeparator) && !Contains(p3, PartSeparator)
    ensures Split(Join([p0, p1, p2, p3], PartSeparator), PartSeparator) == [p0, p1, p2, p3]
  {
    var parts := [p0, p1, p2, p3];
    assert Unbordered(PartSeparator);
    forall k | 0 <= k < |parts| ensures !Contains(parts[k], PartSeparator) {
    }
    SplitJoin(parts, PartSeparator);
  }

  /** A body splitting into four parts whose values are the fields extracts to those fields. */
  lemma ExtractFromParts(body: string, parts: seq<string>, f: Fields)
    requires Split(body, PartSeparator) == parts && |parts| == 4
    requires Value(parts[0]) == Some(f.data) && Value(parts[1]) == Some(f.hora)
    requires Value(parts[2]) == Some(f.uuid) && Value(parts[3]) == Some(f.nome)
    ensures Extract(body) == Some(f)
  {
  }

  /**
   * The producers' wire format round-trips: a body written by WireFormat
   * from plain values extracts to those values.
   */
  lemma ExtractWireFormat(f: Fields)
    requires Plain(f.data) && Plain(f.hora) && Plain(f.uuid) && Plain(f.nome)
    ensures Extract(WireFormat(f)) == Some(f)
  {
    var labels := ["Data", "Hora", "Uuid", "Nome"];
    PlainWithoutSeparators(labels[0]);
    PlainWithoutSeparators(labels[1]);
    PlainWithoutSeparators(labels[2]);
    PlainWithoutSeparators(labels[3]);
    ExtractRender(labels, f);
  }

  /**
   * The example message "Data: 05/03/2024, Hora: 14:30:00, Uuid: abc-123,
   * Nome: Alice" extracts to its four values. The values are passed in and
   * pinned by the precondition, rather than written as literals in the body,
   * so that the solver checks each literal once.
   */
  lemma ExtractWireExample(f: Fields, body: string)
    requires f == Fields("05/03/2024", "14:30:00", "abc-123", "Alice") && body == WireFormat(f)
    ensures Extract(body) == Some(Fields("05/03/2024", "14:30:00", "abc-123", "Alice"))
  {
    WireExamplePlain(f);
    ExtractWireFormat(f);
  }

  /** The example's values hold neither separator. */
  lemma WireExamplePlain(f: Fields)
    requires f == Fields("05/03/2024", "14:30:00", "abc-123", "Alice")
    ensures Plain(f.data) && Plain(f.hora) && Plain(f.uuid) && Plain(f.nome)
  {
    PlainWithoutSeparators(f.data);
    PlainWithoutSeparators(f.hora);
    PlainWithoutSeparators(f.uuid);
    PlainWithoutSeparators(f.nome);
  }

  /** A string without a comma and without a space is plain. */
  lemma PlainWithoutSeparators(s: string)
    requires ',' !in s && ' ' !in s
    ensures Plain(s)
  {
    NotContainsWithoutChar(s, PartSeparator, 0);
    NotContainsWithoutChar(s, LabelSeparator, 1);
  }

  /** A body with only three parts does not extract. */
  lemma ThreePartsDoNotExtract(p0: string, p1: string, p2: string)
    requires !Contains(p0, PartSeparator) && !Contains(p1, PartSeparator) && !Contains(p2, PartSeparator)
    ensures Extract(p0 + PartSeparator + (p1 + PartSeparator + p2)).None?
  {
    assert Unbordered(PartSeparator);
    SplitWithout(p0, PartSeparator);
    SplitWithout(p1, PartSeparator);
    SplitWithout(p2, PartSeparator);
    SplitAppend(p1, PartSeparator, p2);
    SplitAppend(p0, PartSeparator, p1 + PartSeparator + p2);
  }

  /**
   * A body without its `Nome` part does not extract: the example
   * "Data: 05/03/2024, Hora: 14:30:00, Uuid: abc-123".
   */
  lemma ExtractMissingPartExample(body: string, p0: string, p1: string, p2: string)
    requires p0 == "Data: 05/03/2024" && p1 == "Hora: 14:30:00" && p2 == "Uuid: abc-123"
    requires body == p0 + PartSeparator + (p1 + PartSeparator + p2)
    ensures Extract(body).None?
  {
    NotContainsWithoutChar(p0, PartSeparator, 0);
    NotContainsWithoutChar(p1, PartSeparator, 0);
    NotContainsWithoutChar(p2, PartSeparator, 0);
    ThreePartsDoNotExtract(p0, p1, p2);
  }
}
