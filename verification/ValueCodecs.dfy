/**
 The codecs that store a typed value as text: what each reads back, and exactly which values survive.
 */
module ValueCodecs {
  import opened Text
  import Doubles

  datatype Value = Null | Str(text: string) | Num(number: Doubles.Whole) | Flag(flag: bool) | List(items: seq<string>)

  /** The codec of a field. */
  datatype Codec =
    | TextCodec | NullableTextCodec | NumberCodec(min: int, max: int) | BooleanCodec | EnumCodec(options: seq<string>) | ListCodec

  /**
   The JavaScript conversions the codecs rest on, of which only the printed forms are known. `arrayOf` gives the string
   items of a text that is a JSON array.
   */
  datatype Conversions = Conversions(
    numberOf: string -> Option<Doubles.Whole>, booleanOf: string -> Option<bool>, arrayOf: string -> Option<seq<string>>,
    arrayText: seq<string> -> string)

  ghost predicate Faithful(js: Conversions) {
    && (forall n: Doubles.Whole :: js.numberOf(Doubles.PrintWhole(n)) == Some(n))
    && js.booleanOf("true") == Some(true) && js.booleanOf("false") == Some(false)
    && (forall items: seq<string> :: js.arrayText(items) != "" && js.arrayOf(js.arrayText(items)) == Some(items))
  }

  // ----- codecs

  function BooleanText(b: bool): string {
    if b then "true" else "false"
  }

  function TrimmedText(raw: string): Value {
    if Trim(raw) == "" then Null else Str(Trim(raw))
  }

  /** `parse`; `Null` when the stored text says nothing. */
  function Parse(js: Conversions, codec: Codec, raw: string): Value {
    match codec
    case TextCodec => TrimmedText(raw)
    case NullableTextCodec => TrimmedText(raw)
    case NumberCodec(min, max) =>
      if Trim(raw) == "" then Null
      else
        var n := js.numberOf(Trim(raw));
        if n.Some? && min <= n.value <= max then Num(n.value) else Null
    case BooleanCodec => if js.booleanOf(raw).Some? then Flag(js.booleanOf(raw).value) else Null
    case EnumCodec(options) => if raw in options then Str(raw) else Null
    case ListCodec =>
      if raw == "" then Null
      else List(if js.arrayOf(raw).Some? then TrimAndFilter(js.arrayOf(raw).value) else CommaItems(raw))
  }

  /** The values a field of the contract can hold. */
  predicate Typed(codec: Codec, value: Value) {
    match codec
    case TextCodec => value.Str?
    case NullableTextCodec => value.Str? || value.Null?
    case NumberCodec(_, _) => value.Num?
    case BooleanCodec => value.Flag?
    case EnumCodec(_) => value.Str?
    case ListCodec => value.List?
  }

  function Serialize(js: Conversions, value: Value): string {
    match value
    case Null => ""
    case Str(text) => text
    case Num(n) => Doubles.PrintWhole(n)
    case Flag(b) => BooleanText(b)
    case List(items) => js.arrayText(items)
  }

  /** The values that survive being stored. */
  predicate Storable(codec: Codec, value: Value) {
    match value
    case Null => true
    case Str(text) => if codec.EnumCodec? then text in codec.options else Trimmed(text) && text != ""
    case Num(n) => codec.NumberCodec? ==> codec.min <= n <= codec.max
    case Flag(_) => true
    case List(items) => forall item :: item in items ==> TrimmedAndFull(item)
  }

  lemma NumberIsTrimmed(n: Doubles.Whole)
    ensures var s := Doubles.PrintWhole(n); s != "" && Trim(s) == s
  {
    Doubles.WholeEnds(n);
    FullEnds(Doubles.PrintWhole(n));
  }

  lemma FullEnds(s: string)
    requires s != "" && !IsSpace(s[0]) && !IsSpace(s[|s| - 1])
    ensures Trim(s) == s
  {
    TrimmedIff(s);
  }

  lemma TextRoundTrip(text: string)
    ensures TrimmedText(text) == Str(text) <==> Trimmed(text) && text != ""
  {
    TrimmedIff(text);
  }

  lemma NumberParses(js: Conversions, min: int, max: int, text: string, n: Doubles.Whole)
    requires text != "" && Trim(text) == text && js.numberOf(text) == Some(n)
    ensures Parse(js, NumberCodec(min, max), text) == Num(n) <==> min <= n <= max
  {
  }

  lemma NumberRoundTrip(js: Conversions, min: int, max: int, n: Doubles.Whole)
    requires Faithful(js)
    ensures Parse(js, NumberCodec(min, max), Doubles.PrintWhole(n)) == Num(n) <==> min <= n <= max
  {
    NumberIsTrimmed(n);
    NumberParses(js, min, max, Doubles.PrintWhole(n), n);
  }

  lemma BooleanRoundTrip(js: Conversions, b: bool)
    requires Faithful(js)
    ensures Parse(js, BooleanCodec, BooleanText(b)) == Flag(b)
  {
  }

  lemma ListRoundTrip(js: Conversions, items: seq<string>)
    requires Faithful(js)
    ensures Parse(js, ListCodec, js.arrayText(items)) == List(items) <==> forall item :: item in items ==> TrimmedAndFull(item)
  {
    assert js.arrayOf(js.arrayText(items)) == Some(items);
    FilteredAreTrimmed(items);
    if forall item :: item in items ==> TrimmedAndFull(item) { TrimmedAreKept(items); }
  }

  lemma NullRoundTrip()
    ensures TrimmedText("") == Null
  {
  }

  /** A value of the field's type reads back as itself exactly when it is storable. */
  lemma RoundTripIff(js: Conversions, codec: Codec, value: Value)
    requires Faithful(js) && Typed(codec, value)
    ensures ReadsBack(js, codec, value) <==> Storable(codec, value)
  {
    match value
    case Null => NullRoundTrip();
    case Str(text) => if !codec.EnumCodec? { TextRoundTrip(text); }
    case Num(n) => NumberRoundTrip(js, codec.min, codec.max, n);
    case Flag(b) => BooleanRoundTrip(js, b);
    case List(items) => ListRoundTrip(js, items);
  }

  /** Blank text around a text or a number is not read, and blank text reads as nothing. */
  lemma PaddedReads(js: Conversions, codec: Codec, before: string, text: string, after: string)
    requires codec.TextCodec? || codec.NullableTextCodec? || codec.NumberCodec?
    requires IsBlank(before) && IsBlank(after) && text != "" && Trimmed(text)
    ensures codec.NumberCodec? ==>
      match js.numberOf(text)
      case None => Parse(js, codec, before + text + after) == Null
      case Some(n) => Parse(js, codec, before + text + after) == if n < codec.min || codec.max < n then Null else Num(n)
    ensures !codec.NumberCodec? ==> Parse(js, codec, before + text + after) == Str(text)
    ensures Parse(js, codec, before) == Null
  {
    BlankTrimsAway(before);
    TrimOfPadded(before, text, after);
  }

  /** A list that is not stored as an array is read at its commas, each side by itself. */
  lemma CommaListReads(js: Conversions, left: string, right: string)
    requires js.arrayOf(left + [','] + right) == js.arrayOf(left) == js.arrayOf(right) == None && left != "" && right != ""
    ensures Parse(js, ListCodec, left + [','] + right) == List(Parse(js, ListCodec, left).items + Parse(js, ListCodec, right).items)
  {
    ListParses(js, left);
    ListParses(js, right);
    ListParses(js, left + [','] + right);
    CommaItemsOfBoth(left, right);
  }

  lemma ListParses(js: Conversions, raw: string)
    requires js.arrayOf(raw) == None && raw != ""
    ensures Parse(js, ListCodec, raw) == List(CommaItems(raw))
  {
  }

  /** A side without a comma is one item, or none if it is blank. */
  lemma SingleItemReads(js: Conversions, text: string)
    requires js.arrayOf(text) == None && text != "" && ',' !in text
    ensures Parse(js, ListCodec, text) == List(if IsBlank(text) then [] else [Trim(text)])
  {
    ListParses(js, text);
    CommaItemsOfOne(text);
    BlankTrimsAway(text);
  }

  /** A padded text and any number out of range do not read back. */
  lemma PaddedTextIsLost(js: Conversions, max: int, n: Doubles.Whole)
    requires Faithful(js) && n > max
    ensures !ReadsBack(js, TextCodec, Str(" en")) && !ReadsBack(js, NumberCodec(0, max), Num(n))
  {
    RoundTripIff(js, TextCodec, Str(" en"));
    RoundTripIff(js, NumberCodec(0, max), Num(n));
  }

  predicate ReadsBack(js: Conversions, codec: Codec, value: Value) {
    Parse(js, codec, Serialize(js, value)) == value
  }
}
