/** The record-store client: post-processing of the indexer's answers, and
    the field list the write path hands to the schema encoder.

    The GraphQL transport, the attestation SDK and the transaction itself are
    outside the model: a request's outcome is an argument (`ListResponse`,
    `ByIdResponse`), and `JSON.parse` is an arbitrary partial function
    `parse`, `None` meaning that parsing (or iterating the parsed value)
    throws. */
module AttestationsApi {
  import opened Optional
  import opened AttestationTypes
  import opened AttestationHelpers
  import Seqs
  import JsNumber
  import Numerals

  /** One attestation as the indexer lists it; `decodedDataJson` is `None`
      when the property is null or missing. */
  datatype RawAttestation = RawAttestation(id: string, decodedDataJson: Option<string>, txid: string)

  /** How the request for all of the schema's attestations resolved. */
  datatype ListResponse =
    | RequestFailed                       // the request threw
    | NotAList(length: Option<nat>)       // `attestations` is missing or not an array;
                                          // `length` is its numeric `length` if it has one
    | AttestationList(records: seq<RawAttestation>)

  /** How the request for one attestation resolved. */
  datatype ByIdResponse =
    | ByIdRequestFailed                   // the request threw
    | ByIdAnswer(record: Option<RawAttestation>)

  /** A record has a payload when `decodedDataJson` is a non-empty string. */
  predicate HasPayload(raw: RawAttestation)
  {
    raw.decodedDataJson.Some? && raw.decodedDataJson.value != ""
  }

  /** The record survives post-processing: a payload that parses. */
  predicate Survives(raw: RawAttestation, parse: string -> Option<seq<Entry>>)
  {
    HasPayload(raw) && parse(raw.decodedDataJson.value).Some?
  }

  /** The per-record callback of `fetchAttestations`: `None` is the `null`
      it returns for an empty or unparseable payload. Only `id` and the
      decoded data are copied. */
  function Normalize(raw: RawAttestation, parse: string -> Option<seq<Entry>>): (r: Option<Attestation>)
    ensures r.Some? <==> Survives(raw, parse)
    ensures r.Some? ==> r.value.id == raw.id && r.value.txid == None
  {
    if !HasPayload(raw) then None
    else match parse(raw.decodedDataJson.value)
      case None => None
      case Some(entries) => Some(Attestation(raw.id, ParseDecodedData(entries), None))
  }

  /** `fetchAttestations`. */
  function FetchAttestations(response: ListResponse, parse: string -> Option<seq<Entry>>): (r: seq<Attestation>)
    ensures !response.AttestationList? ==> r == []
    ensures response.AttestationList? ==> |r| <= |response.records|
    ensures forall i :: 0 <= i < |r| ==> r[i].txid == None
  {
    match response
    case AttestationList(records) =>
      var r := Seqs.FilterMap(records, raw => Normalize(raw, parse));
      assert forall i :: 0 <= i < |r| ==> r[i].txid == None by {
        forall i | 0 <= i < |r|
          ensures r[i].txid == None
        {
          Seqs.FilterMapMembers(records, raw => Normalize(raw, parse), r[i]);
        }
      }
      r
    case _ => []
  }

  /** The attestation a surviving raw record becomes. */
  function Decoded(raw: RawAttestation, parse: string -> Option<seq<Entry>>): (a: Attestation)
    requires Survives(raw, parse)
    ensures Normalize(raw, parse) == Some(a)
  {
    Attestation(raw.id, ParseDecodedData(parse(raw.decodedDataJson.value).value), None)
  }

  /** The whole list fetch at once: the surviving raw records, in their
      input order, each decoded. */
  lemma FetchAttestationsDecodesSurvivors(records: seq<RawAttestation>, parse: string -> Option<seq<Entry>>)
    ensures var survivors := Seqs.Filter(records, raw => Survives(raw, parse));
      var r := FetchAttestations(AttestationList(records), parse);
      |r| == |survivors| && forall i :: 0 <= i < |r| ==> r[i] == Decoded(survivors[i], parse)
  {
    var f := raw => Normalize(raw, parse);
    var p := raw => Survives(raw, parse);
    var g := raw => if Survives(raw, parse) then Decoded(raw, parse) else Attestation(raw.id, ParseDecodedData([]), None);
    var h := (a: Attestation) => a;
    Seqs.FilterMapKeepsAttribute(records, f, p, g, h);
    var r := FetchAttestations(AttestationList(records), parse);
    var survivors := Seqs.Filter(records, p);
    assert Seqs.Map(r, h) == Seqs.Map(survivors, g);
    forall i | 0 <= i < |r|
      ensures r[i] == Decoded(survivors[i], parse)
    {
      assert Seqs.Map(r, h)[i] == r[i];
      assert p(survivors[i]);
    }
  }

  /** The survivors keep their input order and their ids: the ids of the
      result are the ids of the records with a parseable payload. */
  lemma FetchAttestationsKeepsSurvivors(records: seq<RawAttestation>, parse: string -> Option<seq<Entry>>)
    ensures Seqs.Map(FetchAttestations(AttestationList(records), parse), (a: Attestation) => a.id)
         == Seqs.Map(Seqs.Filter(records, raw => Survives(raw, parse)), (raw: RawAttestation) => raw.id)
  {
    Seqs.FilterMapKeepsAttribute(records, raw => Normalize(raw, parse), raw => Survives(raw, parse),
      (raw: RawAttestation) => raw.id, (a: Attestation) => a.id);
  }

  /** An attestation is returned exactly when some raw record has a
      parseable payload and it is that record's id with the decoded payload. */
  lemma FetchAttestationsMembers(records: seq<RawAttestation>, parse: string -> Option<seq<Entry>>, a: Attestation)
    ensures a in FetchAttestations(AttestationList(records), parse) <==>
      exists i :: 0 <= i < |records| && Survives(records[i], parse)
        && a == Attestation(records[i].id, ParseDecodedData(parse(records[i].decodedDataJson.value).value), None)
  {
    Seqs.FilterMapMembers(records, raw => Normalize(raw, parse), a);
  }

  /** Of three records one of which has an empty payload, the other two are
      returned. */
  lemma OneEmptyPayloadOfThree(entries: seq<Entry>)
    ensures FetchAttestations(AttestationList([
        RawAttestation("a", Some("[]"), "t1"),
        RawAttestation("b", Some(""), "t2"),
        RawAttestation("c", Some("[]"), "t3")]), _ => Some(entries))
      == [Attestation("a", ParseDecodedData(entries), None), Attestation("c", ParseDecodedData(entries), None)]
  {
    var parse: string -> Option<seq<Entry>> := _ => Some(entries);
    var rs := [RawAttestation("a", Some("[]"), "t1"), RawAttestation("b", Some(""), "t2"), RawAttestation("c", Some("[]"), "t3")];
    var f := raw => Normalize(raw, parse);
    assert rs[1..][1..] == [rs[2]];
    assert Seqs.FilterMap(rs[1..][1..], f) == [Attestation("c", ParseDecodedData(entries), None)];
    assert Seqs.FilterMap(rs[1..], f) == Seqs.FilterMap(rs[1..][1..], f);
  }

  /** `fetchAttestationById`: null for a failed request, a missing record or
      an empty or unparseable payload; otherwise the record's id and txid
      with its decoded payload. */
  function FetchAttestationById(response: ByIdResponse, parse: string -> Option<seq<Entry>>): (r: Option<Attestation>)
    ensures r.Some? <==> response.ByIdAnswer? && response.record.Some? && Survives(response.record.value, parse)
    ensures r.Some? ==> (
      && r.value.id == response.record.value.id
      && r.value.txid == Some(response.record.value.txid)
      && r.value.decodedData == ParseDecodedData(parse(response.record.value.decodedDataJson.value).value))
  {
    match response
    case ByIdRequestFailed => None
    case ByIdAnswer(record) =>
      if record.None? || !HasPayload(record.value) then None
      else match parse(record.value.decodedDataJson.value)
        case None => None
        case Some(entries) => Some(Attestation(record.value.id, ParseDecodedData(entries), Some(record.value.txid)))
  }

  /** `fetchTotalAttestations`: the numeric `length` of the answer's
      `attestations`, and 0 when the request throws or there is none. */
  function FetchTotalAttestations(response: ListResponse): (r: nat)
    ensures response.AttestationList? ==> r == |response.records|
    ensures response.NotAList? && response.length.Some? ==> r == response.length.value
    ensures response.RequestFailed? || (response.NotAList? && response.length.None?) ==> r == 0
  {
    match response
    case AttestationList(records) => |records|
    case NotAList(Some(n)) => n
    case _ => 0
  }

  /** Unlike the list fetch, the count only asks for a numeric `length`: a
      non-array answer that has one is counted, while the list fetch
      returns nothing for it. */
  lemma CountAcceptsNonArrayLength(n: nat, parse: string -> Option<seq<Entry>>)
    ensures FetchTotalAttestations(NotAList(Some(n))) == n
    ensures FetchAttestations(NotAList(Some(n)), parse) == []
  {
  }

  /** The count is never below the number of records the list fetch returns
      for the same answer. */
  lemma TotalIsAtLeastFetched(response: ListResponse, parse: string -> Option<seq<Entry>>)
    ensures FetchTotalAttestations(response) >= |FetchAttestations(response, parse)|
  {
  }

  /** As written, the count includes a record the list fetch drops. */
  lemma TotalCountsDroppedRecords(parse: string -> Option<seq<Entry>>)
    ensures FetchTotalAttestations(AttestationList([RawAttestation("a", None, "t")])) == 1
    ensures FetchAttestations(AttestationList([RawAttestation("a", None, "t")]), parse) == []
  {
  }

  /** The count the record store describes: the number of records the list
      fetch returns. */
  function FetchTotalDecoded(response: ListResponse, parse: string -> Option<seq<Entry>>): (r: nat)
    ensures r <= FetchTotalAttestations(response)
    ensures response.AttestationList? ==> r == |Seqs.Filter(response.records, raw => Survives(raw, parse))|
  {
    var fetched := FetchAttestations(response, parse);
    match response
    case AttestationList(records) =>
      FetchAttestationsKeepsSurvivors(records, parse);
      assert |Seqs.Map(fetched, (a: Attestation) => a.id)| == |fetched|;
      |fetched|
    case _ => |fetched|
  }

  predicate HasBatchId(a: Attestation, batchId: string)
  {
    a.decodedData.batchId == Some(Str(batchId))
  }

  /** `fetchAttestationsByBatchId`: the fetched records whose `batchId` is
      exactly the argument, in fetch order. */
  function FetchAttestationsByBatchId(response: ListResponse, parse: string -> Option<seq<Entry>>, batchId: string): (r: seq<Attestation>)
    ensures forall i :: 0 <= i < |r| ==> r[i].decodedData.batchId == Some(Str(batchId))
    ensures Seqs.IsSubsequence(r, FetchAttestations(response, parse))
    ensures forall a :: a in FetchAttestations(response, parse) && a.decodedData.batchId == Some(Str(batchId)) ==> a in r
    ensures forall a :: multiset(r)[a] == (if HasBatchId(a, batchId) then multiset(FetchAttestations(response, parse))[a] else 0)
  {
    var fetched := FetchAttestations(response, parse);
    var p := (a: Attestation) => a.decodedData.batchId == Some(Str(batchId));
    Seqs.FilterIsSubsequence(fetched, p);
    var r := Seqs.Filter(fetched, p);
    assert forall a :: a in fetched && p(a) ==> a in r by {
      forall a | a in fetched && p(a)
        ensures a in r
      {
        var i :| 0 <= i < |fetched| && fetched[i] == a;
      }
    }
    forall a
      ensures multiset(r)[a] == if p(a) then multiset(fetched)[a] else 0
    {
      Seqs.FilterCounts(fetched, p, a);
    }
    r
  }

  // ---------------------------------------------------------------------
  // The write path's field list.

  /** One `type name` declaration of the schema string. */
  datatype Declaration = Declaration(abiType: string, name: string)

  /** The attestation schema, as registered and as the encoder is built
      with, declaration by declaration. */
  const SchemaDeclarations: seq<Declaration> := [
    Declaration("string", "batchId"),
    Declaration("uint256", "timestamp"),
    Declaration("address", "attester"),
    Declaration("uint8", "stage"),
    Declaration("string", "location"),
    Declaration("string[]", "certifications"),
    Declaration("string", "details"),
    Declaration("bytes32", "previousAttestationId")]

  /** `createAttestation`'s arguments, in its parameter order; `None` is an
      argument the caller left undefined. */
  datatype CreateArgs = CreateArgs(
    batchId: Option<Value>,
    stage: Option<Value>,
    location: Option<Value>,
    certifications: Option<Value>,
    details: Option<Value>,
    attester: Option<Value>,
    previousAttestationId: Option<Value>,
    timestamp: Option<Value>)

  /** One `{ name, value, type }` element handed to `encodeData`. */
  datatype SchemaItem = SchemaItem(name: string, value: Option<Value>, abiType: AbiType)

  /** The Solidity ABI types the schema uses. */
  datatype AbiType = AbiString | Uint256 | Address | Uint8 | StringArray | Bytes32

  function AbiTypeName(t: AbiType): string
  {
    match t
    case AbiString => "string"
    case Uint256 => "uint256"
    case Address => "address"
    case Uint8 => "uint8"
    case StringArray => "string[]"
    case Bytes32 => "bytes32"
  }

  /** The list `createAttestation` encodes. */
  function EncodeList(args: CreateArgs): (r: seq<SchemaItem>)
    ensures |r| == |SchemaFields|
    ensures forall k :: 0 <= k < |r| ==> r[k].name == FieldName(SchemaFields[k])
  {
    [ SchemaItem("batchId", args.batchId, AbiString),
      SchemaItem("timestamp", args.timestamp, Uint256),
      SchemaItem("attester", args.attester, Address),
      SchemaItem("stage", args.stage, Uint8),
      SchemaItem("location", args.location, AbiString),
      SchemaItem("certifications", args.certifications, StringArray),
      SchemaItem("details", args.details, AbiString),
      SchemaItem("previousAttestationId", args.previousAttestationId, Bytes32) ]
  }

  /** The declaration an encoder item makes. */
  function DeclarationOf(it: SchemaItem): Declaration
  {
    Declaration(AbiTypeName(it.abiType), it.name)
  }

  /** The encoded list declares exactly the schema's names and types, in the
      schema's order. That `SchemaDeclarations` spells the encoder's schema
      string declaration by declaration is read off the two texts, not
      proved: the solver does not unfold a string literal that long. */
  lemma EncodeListMatchesSchema(args: CreateArgs)
    ensures Seqs.Map(EncodeList(args), DeclarationOf) == SchemaDeclarations
  {
    var d := Seqs.Map(EncodeList(args), DeclarationOf);
    assert d[0] == SchemaDeclarations[0];
    assert d[1] == SchemaDeclarations[1];
    assert d[2] == SchemaDeclarations[2];
    assert d[3] == SchemaDeclarations[3];
    assert d[4] == SchemaDeclarations[4];
    assert d[5] == SchemaDeclarations[5];
    assert d[6] == SchemaDeclarations[6];
    assert d[7] == SchemaDeclarations[7];
  }

  /** `0x` followed by `digits` hexadecimal digits. */
  predicate IsHexOfLength(s: string, digits: nat)
  {
    |s| == 2 + digits && s[0] == '0' && s[1] == 'x'
    && forall i :: 2 <= i < |s| ==> Numerals.IsDigitIn(s[i], 16)
  }

  /** `ethers.ZeroHash`: thirty-two zero bytes. */
  const ZeroHash: string := "0x" + ZeroDigits(64)

  /** `n` zero digits. */
  function ZeroDigits(n: nat): (r: string)
    ensures |r| == n && forall i :: 0 <= i < n ==> r[i] == '0'
  {
    if n == 0 then "" else "0" + ZeroDigits(n - 1)
  }

  lemma ZeroHashIsBytes32()
    ensures IsHexOfLength(ZeroHash, 64)
  {
  }

  const TwoTo256: nat := 0x1_0000_0000_0000_0000_0000_0000_0000_0000_0000_0000_0000_0000_0000_0000_0000_0000

  /** The values the Solidity ABI type accepts, in the shapes the model
      distinguishes. */
  predicate Conforms(v: Option<Value>, abiType: AbiType)
  {
    match v
    case None => false
    case Some(x) =>
      match abiType
      case AbiString => x.Str?
      case Uint256 => x.Num? && 0 <= x.n < TwoTo256
      case Uint8 => x.Num? && 0 <= x.n < 256
      case Address => x.Str? && IsHexOfLength(x.s, 40)
      case Bytes32 => x.Str? && IsHexOfLength(x.s, 64)
      case StringArray => x.Strs?
  }

  /** Every element holds a value of its declared type, so encoding succeeds. */
  predicate Encodable(items: seq<SchemaItem>)
  {
    forall k :: 0 <= k < |items| ==> Conforms(items[k].value, items[k].abiType)
  }

  /** How the indexer writes a value back in `decodedDataJson`: a `uint256`
      as an object with a hexadecimal `hex`, everything else as itself.
      Echoing `address` and `bytes32` values verbatim is an assumption of the
      model: the indexer's ABI decoding, outside this code, may change the
      letter case of their hex digits. */
  function IndexedValue(v: Value, abiType: AbiType): Value
  {
    if abiType == Uint256 && v.Num? && v.n >= 0 then BigNumber(JsNumber.FormatHex(v.n)) else v
  }

  function IndexedEntry(it: SchemaItem): Entry
    requires it.value.Some?
  {
    Entry(it.name, Some(IndexedValue(it.value.value, it.abiType)))
  }

  /** The decoded-field list the indexer serves for an encodable list. */
  function IndexedEntries(items: seq<SchemaItem>): (r: seq<Entry>)
    requires Encodable(items)
    ensures |r| == |items|
    ensures forall k :: 0 <= k < |items| ==> r[k] == IndexedEntry(items[k])
  {
    seq(|items|, k requires 0 <= k < |items| => IndexedEntry(items[k]))
  }

  /** The record the arguments describe. */
  function ArgsRecord(args: CreateArgs): DecodedData
  {
    DecodedData(args.batchId, args.timestamp, args.attester, args.stage, args.location,
      args.certifications, args.details, args.previousAttestationId)
  }

  function FieldPosition(f: Field): (k: nat)
    ensures k < |SchemaFields| && SchemaFields[k] == f
  {
    match f
    case BatchId => 0
    case Timestamp => 1
    case Attester => 2
    case Stage => 3
    case Location => 4
    case Certifications => 5
    case Details => 6
    case PreviousAttestationId => 7
  }

  /** Decoding what the indexer serves for an encoded attestation gives back
      every argument: encoding and decoding are inverse on encodable
      arguments. */
  lemma EncodeDecodeRoundTrip(args: CreateArgs)
    requires Encodable(EncodeList(args))
    ensures ParseDecodedData(IndexedEntries(EncodeList(args))) == ArgsRecord(args)
  {
    var d := ParseDecodedData(IndexedEntries(EncodeList(args)));
    forall f: Field
      ensures Get(d, f) == Get(ArgsRecord(args), f)
    {
      RoundTripField(args, f);
    }
    DecodedDataExtensionality(d, ArgsRecord(args));
  }

  lemma RoundTripField(args: CreateArgs, f: Field)
    requires Encodable(EncodeList(args))
    ensures Get(ParseDecodedData(IndexedEntries(EncodeList(args))), f) == Get(ArgsRecord(args), f)
  {
    var es := IndexedEntries(EncodeList(args));
    IndexedValueDecodes(args, f);
    NoLaterEntryApplies(args, f);
    DecodeLastEntryWins(es, f, FieldPosition(f));
  }

  /** Only the entry at a field's own position names it. */
  lemma NoLaterEntryApplies(args: CreateArgs, f: Field)
    requires Encodable(EncodeList(args))
    ensures Applies(IndexedEntries(EncodeList(args))[FieldPosition(f)], f)
    ensures forall j :: FieldPosition(f) < j < |IndexedEntries(EncodeList(args))| ==>
      !Applies(IndexedEntries(EncodeList(args))[j], f)
  {
    var es := IndexedEntries(EncodeList(args));
    var k := FieldPosition(f);
    IndexedEntryNames(args);
    SchemaFieldsComplete(f);
    SchemaFieldsDistinct();
    forall j | k < j < |es|
      ensures !Applies(es[j], f)
    {
      var g := SchemaFields[j];
      assert g != f;
      SchemaFieldsComplete(g);
    }
  }

  /** The indexer's entries carry the schema's names, in order. */
  lemma IndexedEntryNames(args: CreateArgs)
    requires Encodable(EncodeList(args))
    ensures forall j :: 0 <= j < |SchemaFields| ==>
      IndexedEntries(EncodeList(args))[j].name == FieldName(SchemaFields[j])
      && IndexedEntries(EncodeList(args))[j].value.Some?
  {
  }

  /** Each served value decodes to the argument it came from. */
  lemma IndexedValueDecodes(args: CreateArgs, f: Field)
    requires Encodable(EncodeList(args))
    ensures IndexedEntries(EncodeList(args))[FieldPosition(f)].value.Some?
    ensures FieldValue(f, IndexedEntries(EncodeList(args))[FieldPosition(f)].value.value) == Get(ArgsRecord(args), f)
  {
    var items := EncodeList(args);
    var k := FieldPosition(f);
    assert Conforms(items[k].value, items[k].abiType);
    if f == Timestamp {
      TimestampDecodes(args);
    } else {
      assert items[k].abiType != Uint256;
      assert IndexedEntries(items)[k].value == items[k].value;
      assert items[k].value == Get(ArgsRecord(args), f);
    }
  }

  /** The timestamp travels as a hexadecimal big number and parses back. */
  lemma TimestampDecodes(args: CreateArgs)
    requires Conforms(args.timestamp, Uint256)
    ensures TimestampValue(IndexedValue(args.timestamp.value, Uint256)) == args.timestamp
  {
    JsNumber.ParseFormatHex(args.timestamp.value.n);
  }
}
