/** The attestation record and the values its fields hold.

    The decoder's result is cast to the record type without any check, so a
    decoded field holds whatever value the indexer delivered, and a field the
    indexer did not deliver is `undefined`. The model therefore gives every
    field an optional, dynamically typed value. */
module AttestationTypes {
  import opened Optional

  /** A JavaScript value as it can appear in a decoded field. */
  datatype Value =
    | Num(n: int)             // a number holding an integer
    | NaN                     // the number NaN
    | Str(s: string)
    | Strs(items: seq<string>) // an array of strings
    | BigNumber(hex: string)  // an object with a string `hex` property

  /** The eight fields of the attestation schema. */
  datatype Field =
    | BatchId | Timestamp | Attester | Stage | Location | Certifications | Details | PreviousAttestationId

  /** The fields in the order the schema string lists them. */
  const SchemaFields: seq<Field> :=
    [BatchId, Timestamp, Attester, Stage, Location, Certifications, Details, PreviousAttestationId]

  function FieldName(f: Field): string
  {
    match f
    case BatchId => "batchId"
    case Timestamp => "timestamp"
    case Attester => "attester"
    case Stage => "stage"
    case Location => "location"
    case Certifications => "certifications"
    case Details => "details"
    case PreviousAttestationId => "previousAttestationId"
  }

  /** The field a property name denotes, if it is one of the schema's. */
  function FieldNamed(name: string): (r: Option<Field>)
    ensures r.Some? ==> FieldName(r.value) == name
    ensures r.None? ==> forall f: Field :: FieldName(f) != name
  {
    if name == "batchId" then Some(BatchId)
    else if name == "timestamp" then Some(Timestamp)
    else if name == "attester" then Some(Attester)
    else if name == "stage" then Some(Stage)
    else if name == "location" then Some(Location)
    else if name == "certifications" then Some(Certifications)
    else if name == "details" then Some(Details)
    else if name == "previousAttestationId" then Some(PreviousAttestationId)
    else None
  }

  lemma SchemaFieldsComplete(f: Field)
    ensures f in SchemaFields
    ensures FieldNamed(FieldName(f)) == Some(f)
  {
  }

  lemma SchemaFieldsDistinct()
    ensures forall i, j :: 0 <= i < j < |SchemaFields| ==> SchemaFields[i] != SchemaFields[j]
  {
  }

  /** A decoded record: each field present or absent. */
  datatype DecodedData = DecodedData(
    batchId: Option<Value>,
    timestamp: Option<Value>,
    attester: Option<Value>,
    stage: Option<Value>,
    location: Option<Value>,
    certifications: Option<Value>,
    details: Option<Value>,
    previousAttestationId: Option<Value>)

  const NoFields := DecodedData(None, None, None, None, None, None, None, None)

  /** `decodedData[f]`. */
  function Get(d: DecodedData, f: Field): Option<Value>
  {
    match f
    case BatchId => d.batchId
    case Timestamp => d.timestamp
    case Attester => d.attester
    case Stage => d.stage
    case Location => d.location
    case Certifications => d.certifications
    case Details => d.details
    case PreviousAttestationId => d.previousAttestationId
  }

  /** `decodedData[f] = v`. */
  function Set(d: DecodedData, f: Field, v: Option<Value>): (r: DecodedData)
    ensures Get(r, f) == v
    ensures forall g: Field :: g != f ==> Get(r, g) == Get(d, g)
  {
    match f
    case BatchId => d.(batchId := v)
    case Timestamp => d.(timestamp := v)
    case Attester => d.(attester := v)
    case Stage => d.(stage := v)
    case Location => d.(location := v)
    case Certifications => d.(certifications := v)
    case Details => d.(details := v)
    case PreviousAttestationId => d.(previousAttestationId := v)
  }

  /** Records that agree on every field are the same record. */
  lemma DecodedDataExtensionality(a: DecodedData, b: DecodedData)
    requires forall f: Field :: Get(a, f) == Get(b, f)
    ensures a == b
  {
    assert Get(a, BatchId) == Get(b, BatchId);
    assert Get(a, Timestamp) == Get(b, Timestamp);
    assert Get(a, Attester) == Get(b, Attester);
    assert Get(a, Stage) == Get(b, Stage);
    assert Get(a, Location) == Get(b, Location);
    assert Get(a, Certifications) == Get(b, Certifications);
    assert Get(a, Details) == Get(b, Details);
    assert Get(a, PreviousAttestationId) == Get(b, PreviousAttestationId);
  }

  /** A fetched attestation; `txid` is present only when the query copied it. */
  datatype Attestation = Attestation(id: string, decodedData: DecodedData, txid: Option<string>)

  /** The six supply-chain stages, indexed 0 to 5. */
  const StageNames: seq<string> := ["Farm", "Processing", "Export", "Import", "Roasting", "Retail"]

  lemma StageNamesDistinct()
    ensures forall i, j :: 0 <= i < j < |StageNames| ==> StageNames[i] != StageNames[j]
  {
  }
}
