/** The decoder that turns the indexer's decoded-field list into a record. */
module AttestationHelpers {
  import opened Optional
  import opened AttestationTypes
  import Seqs
  import JsNumber

  /** One element of the decoded-field list: the field name, and
      `value.value` when `value` is an object whose own `value` is neither
      undefined nor null (`None` in every other case). */
  datatype Entry = Entry(name: string, value: Option<Value>)

  /** The `timestamp` case: the base-16 value of `value.value.hex` when that
      is a non-empty string, and undefined otherwise. */
  function TimestampValue(v: Value): (r: Option<Value>)
    ensures r.Some? <==> v.BigNumber? && v.hex != ""
    ensures r.Some? ==> (r.value == NaN <==> JsNumber.ParseInt16(v.hex).None?)
    ensures r.Some? && r.value != NaN ==> r.value == Num(JsNumber.ParseInt16(v.hex).value)
  {
    if v.BigNumber? && v.hex != "" then
      match JsNumber.ParseInt16(v.hex)
      case Some(n) => Some(Num(n))
      case None => Some(NaN)
    else None
  }

  /** The `stage` case: a number is kept, anything else is looked up in the
      stage vocabulary, -1 standing for a name that is not there. */
  function StageValue(v: Value): (r: Value)
    ensures v.Num? || v.NaN? ==> r == v
    ensures v.Str? && v.s in StageNames ==> r.Num? && 0 <= r.n < |StageNames| && StageNames[r.n] == v.s
    ensures !(v.Num? || v.NaN?) && !(v.Str? && v.s in StageNames) ==> r == Num(-1)
  {
    if v.Num? || v.NaN? then v
    else if v.Str? then Num(Seqs.IndexOf(StageNames, v.s))
    else Num(-1)
  }

  /** What the decoder stores in field `f` for an entry carrying `v`. */
  function FieldValue(f: Field, v: Value): Option<Value>
  {
    match f
    case Timestamp => TimestampValue(v)
    case Stage => Some(StageValue(v))
    case _ => Some(v)
  }

  /** The entry is one the decoder acts on for field `f`. */
  predicate Applies(e: Entry, f: Field)
  {
    e.value.Some? && FieldNamed(e.name) == Some(f)
  }

  /** The entry is one the decoder acts on at all. */
  predicate IsSchemaEntry(e: Entry)
  {
    e.value.Some? && FieldNamed(e.name).Some?
  }

  /** One iteration of the decoding loop. */
  function Step(d: DecodedData, e: Entry): DecodedData
  {
    if e.value.None? then d
    else match FieldNamed(e.name)
      case None => d
      case Some(f) => Set(d, f, FieldValue(f, e.value.value))
  }

  /** `parseDecodedData`: the entries applied in order to an empty record. */
  function ParseDecodedData(es: seq<Entry>): DecodedData
    decreases |es|
  {
    if |es| == 0 then NoFields else Step(ParseDecodedData(es[..|es| - 1]), es[|es| - 1])
  }

  /** A field takes its value from the last entry that names it with a
      non-null value; earlier entries for it are overridden. */
  lemma {:induction false} DecodeLastEntryWins(es: seq<Entry>, f: Field, i: nat)
    requires i < |es| && Applies(es[i], f)
    requires forall j :: i < j < |es| ==> !Applies(es[j], f)
    ensures Get(ParseDecodedData(es), f) == FieldValue(f, es[i].value.value)
    decreases |es|
  {
    var n := |es| - 1;
    var front := es[..n];
    if i < n {
      DecodeLastEntryWins(front, f, i);
      assert !Applies(es[n], f);
    }
  }

  /** A field no entry names with a non-null value stays absent. */
  lemma {:induction false} DecodeAbsentField(es: seq<Entry>, f: Field)
    requires forall j :: 0 <= j < |es| ==> !Applies(es[j], f)
    ensures Get(ParseDecodedData(es), f) == None
    decreases |es|
  {
    if |es| > 0 {
      var n := |es| - 1;
      DecodeAbsentField(es[..n], f);
      assert !Applies(es[n], f);
    }
  }

  /** Entries with a name outside the schema, and entries without a value,
      do not influence the result. */
  lemma {:induction false} DecodeIgnoresOtherEntries(es: seq<Entry>)
    ensures ParseDecodedData(es) == ParseDecodedData(Seqs.Filter(es, IsSchemaEntry))
    decreases |es|
  {
    if |es| > 0 {
      var n := |es| - 1;
      var front := es[..n];
      assert es == front + [es[n]];
      Seqs.FilterSnoc(front, es[n], IsSchemaEntry);
      DecodeIgnoresOtherEntries(front);
      var kept := Seqs.Filter(front, IsSchemaEntry);
      if IsSchemaEntry(es[n]) {
        assert Seqs.Filter(es, IsSchemaEntry) == kept + [es[n]];
        assert (kept + [es[n]])[..|kept|] == kept;
      } else {
        assert Seqs.Filter(es, IsSchemaEntry) == kept;
      }
    }
  }

  /** A stage given by name decodes to that name's index. */
  lemma StageNameDecodesToIndex(k: nat)
    requires k < |StageNames|
    ensures ParseDecodedData([Entry("stage", Some(Str(StageNames[k])))]).stage == Some(Num(k))
  {
    StageNamesDistinct();
    var es := [Entry("stage", Some(Str(StageNames[k])))];
    DecodeLastEntryWins(es, Stage, 0);
  }

  /** A stage given as a number is copied, and an unknown stage name
      decodes to -1 rather than failing. */
  lemma StageNumberOrUnknownName(n: int, name: string)
    requires name !in StageNames
    ensures ParseDecodedData([Entry("stage", Some(Num(n)))]).stage == Some(Num(n))
    ensures ParseDecodedData([Entry("stage", Some(Str(name)))]).stage == Some(Num(-1))
  {
    DecodeLastEntryWins([Entry("stage", Some(Num(n)))], Stage, 0);
    DecodeLastEntryWins([Entry("stage", Some(Str(name)))], Stage, 0);
  }
}
