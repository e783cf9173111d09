/** The seeding script's simulation rules: where a batch goes at each stage,
    which certifications it carries, how long the script waits, and how the
    batches advance through the six stages. Every random choice is an
    explicit `r` in [0, 1), the value `Math.random()` would have returned. */
module RegisterAttestations {
  import opened Optional
  import opened AttestationTypes
  import opened Seqs
  import AttestationsApi
  import opened AttestationHelpers

  // ------------------------------------------------------------ randomness

  /** `Math.floor(r * n)`. */
  function RandomIndex(r: real, n: nat): (i: int)
    requires 0.0 <= r < 1.0
    ensures n > 0 ==> 0 <= i < n
    ensures n == 0 ==> i == 0
  {
    ScaledBelow(r, n);
    (r * n as real).Floor
  }

  lemma ScaledBelow(r: real, n: nat)
    requires 0.0 <= r < 1.0
    ensures 0.0 <= r * n as real <= n as real
    ensures n > 0 ==> r * n as real < n as real
  {
    var m := n as real;
    assert n as real - r * m == (1.0 - r) * m;
  }

  /** `getRandomElement`: undefined for an empty list. */
  function GetRandomElement<T>(xs: seq<T>, r: real): (e: Option<T>)
    requires 0.0 <= r < 1.0
    ensures e.None? <==> |xs| == 0
    ensures e.Some? ==> e.value == xs[RandomIndex(r, |xs|)]
  {
    if |xs| == 0 then None else Some(xs[RandomIndex(r, |xs|)])
  }

  // ------------------------------------------------------------- locations

  const ProductionCountries: seq<string> :=
    ["Colombia", "Brazil", "Ethiopia", "Vietnam", "Indonesia", "Kenya", "Costa Rica"]

  const ImportCountries: seq<string> :=
    ["USA", "Germany", "Japan", "Italy", "Canada", "Netherlands", "South Korea", "UK", "France",
     "Australia", "Spain", "Sweden"]

  const RoastingCountries: seq<string> :=
    ["USA", "Germany", "Japan", "Italy", "Canada", "UK", "France", "Australia", "Spain", "Sweden"]

  const RetailCountries: seq<string> := RoastingCountries

  /** `cities[country]`. */
  function CitiesOf(country: string): Option<seq<string>>
  {
    if country == "Colombia" then Some(["Bogotá", "Medellín", "Cali", "Cartagena", "Barranquilla"])
    else if country == "Brazil" then Some(["São Paulo", "Rio de Janeiro", "Belo Horizonte", "Salvador", "Brasília"])
    else if country == "Ethiopia" then Some(["Addis Ababa", "Dire Dawa", "Bahir Dar", "Hawassa", "Mek'ele"])
    else if country == "Vietnam" then Some(["Ho Chi Minh City", "Hanoi", "Da Nang", "Hoi An", "Nha Trang"])
    else if country == "Indonesia" then Some(["Jakarta", "Surabaya", "Bandung", "Medan", "Semarang"])
    else if country == "Kenya" then Some(["Nairobi", "Mombasa", "Kisumu", "Nakuru", "Eldoret"])
    else if country == "Costa Rica" then Some(["San José", "Liberia", "Alajuela", "Cartago", "Heredia"])
    else if country == "USA" then Some(["Seattle", "New York", "San Francisco", "Los Angeles", "Chicago"])
    else if country == "Germany" then Some(["Berlin", "Hamburg", "Munich", "Cologne", "Frankfurt"])
    else if country == "Japan" then Some(["Tokyo", "Osaka", "Kyoto", "Yokohama", "Nagoya"])
    else if country == "Italy" then Some(["Rome", "Milan", "Florence", "Venice", "Naples"])
    else if country == "Canada" then Some(["Toronto", "Vancouver", "Montreal", "Calgary", "Ottawa"])
    else if country == "Netherlands" then Some(["Amsterdam", "Rotterdam", "The Hague", "Utrecht", "Eindhoven"])
    else if country == "South Korea" then Some(["Seoul", "Busan", "Incheon", "Daegu", "Daejeon"])
    else if country == "UK" then Some(["London", "Manchester", "Birmingham", "Edinburgh", "Glasgow"])
    else if country == "France" then Some(["Paris", "Lyon", "Marseille", "Bordeaux", "Strasbourg"])
    else if country == "Australia" then Some(["Sydney", "Melbourne", "Brisbane", "Perth", "Adelaide"])
    else if country == "Spain" then Some(["Madrid", "Barcelona", "Valencia", "Seville", "Bilbao"])
    else if country == "Sweden" then Some(["Stockholm", "Gothenburg", "Malmö", "Uppsala", "Västerås"])
    else None
  }

  /** `getRandomCity`: the country's own name when it has no city list,
      otherwise one of its cities. */
  function GetRandomCity(country: string, r: real): (city: string)
    requires 0.0 <= r < 1.0
    ensures (CitiesOf(country).None? || |CitiesOf(country).value| == 0) ==> city == country
    ensures CitiesOf(country).Some? && |CitiesOf(country).value| > 0 ==> city in CitiesOf(country).value
  {
    match CitiesOf(country)
    case None => country
    case Some(list) => if |list| == 0 then country else list[RandomIndex(r, |list|)]
  }

  /** `getRandomCountryForStage`: `None` where it throws, on a stage with no
      entry in the six-stage table. Farm, Processing and Export keep a
      production country and otherwise pick one; Import picks an importing
      country other than the current one; Roasting and Retail pick from
      their own lists. */
  function GetRandomCountryForStage(stage: int, current: string, r: real): (c: Option<string>)
    requires 0.0 <= r < 1.0
    ensures c.None? <==> !(0 <= stage < |StageNames|)
    ensures 0 <= stage <= 2 && current in ProductionCountries ==> c == Some(current)
    ensures 0 <= stage <= 2 ==> c.Some? && c.value in ProductionCountries
    ensures stage == 3 ==> c.Some? && c.value in ImportCountries && c.value != current
    ensures stage == 4 ==> c.Some? && c.value in RoastingCountries
    ensures stage == 5 ==> c.Some? && c.value in RetailCountries
  {
    if !(0 <= stage < |StageNames|) then None
    else if stage <= 2 then
      if current in ProductionCountries then Some(current) else GetRandomElement(ProductionCountries, r)
    else if stage == 3 then
      var others := Filter(ImportCountries, (x: string) => x != current);
      ImportAlternativesExist(current);
      GetRandomElement(others, r)
    else if stage == 4 then GetRandomElement(RoastingCountries, r)
    else GetRandomElement(RetailCountries, r)
  }

  /** Removing the current country from the import list never empties it. */
  lemma ImportAlternativesExist(current: string)
    ensures |Filter(ImportCountries, (x: string) => x != current)| > 0
  {
    var p := (x: string) => x != current;
    if current == ImportCountries[0] {
      assert p(ImportCountries[1]);
    } else {
      assert p(ImportCountries[0]);
    }
  }

  // --------------------------------------------------------- certifications

  /** `Object.keys(certifications)`, in declaration order. */
  const CertificationKeys: seq<string> :=
    ["Organic", "Fair Trade", "Rainforest Alliance", "UTZ Certified", "Bird Friendly"]

  /** The certifications an attestation lists: the first one to three keys. */
  function SelectCertifications(r: real): (cs: seq<string>)
    requires 0.0 <= r < 1.0
    ensures 1 <= |cs| <= 3
    ensures cs == CertificationKeys[..|cs|]
  {
    CertificationKeys[..RandomIndex(r, 3) + 1]
  }

  // --------------------------------------------------------------- waiting

  /** `Math.min(stage + 1, 3)`. */
  function StageMultiplier(stage: int): (m: int)
    ensures stage >= 0 ==> 1 <= m <= 3
    ensures m <= stage + 1 && m <= 3 && (m == stage + 1 || m == 3)
  {
    if stage + 1 < 3 then stage + 1 else 3
  }

  /** `getRandomInterval`, in milliseconds. */
  function RandomInterval(stage: int, r: real): (ms: real)
    requires stage >= 0 && 0.0 <= r < 1.0
    ensures 3000.0 <= ms < 63000.0
  {
    var extra := RandomIndex(r, 60000);
    3000.0 + extra as real / StageMultiplier(stage) as real
  }

  /** Later stages wait no longer than earlier ones for the same draw. */
  lemma IntervalShrinksWithStage(s: int, t: int, r: real)
    requires 0 <= s <= t && 0.0 <= r < 1.0
    ensures RandomInterval(t, r) <= RandomInterval(s, r)
  {
    var extra := RandomIndex(r, 60000) as real;
    var a, b := StageMultiplier(s) as real, StageMultiplier(t) as real;
    var x, y := extra / b, extra / a;
    assert x * b == extra && y * a == extra;
    assert x * a <= x * b;
    assert (x - y) * a <= 0.0;
  }

  // ---------------------------------------------------------------- batches

  /** One simulated batch (its dates and size play no part here). */
  datatype Batch = Batch(
    batchId: string,
    stage: int,
    previousAttestationId: string,
    country: string,
    city: string)

  /** A new batch: at the farm stage, with no previous attestation, in a
      production country chosen from an empty current country. */
  function InitBatch(batchId: string, rCountry: real, rCity: real): (b: Batch)
    requires 0.0 <= rCountry < 1.0 && 0.0 <= rCity < 1.0
    ensures b.stage == 0 && b.previousAttestationId == AttestationsApi.ZeroHash
    ensures b.country in ProductionCountries
    ensures b.city in CitiesOf(b.country).value
  {
    NewBatch(batchId, GetRandomElement(ProductionCountries, rCountry).value, rCity)
  }

  function NewBatch(batchId: string, country: string, rCity: real): Batch
    requires 0.0 <= rCity < 1.0
  {
    Batch(batchId, 0, AttestationsApi.ZeroHash, country, GetRandomCity(country, rCity))
  }

  /** The `location` text of an attestation: city, comma, country. */
  function LocationText(b: Batch): (r: string)
    ensures |r| == |b.city| + 2 + |b.country|
    ensures r[..|b.city|] == b.city && r[|b.city|..|b.city| + 2] == ", " && r[|b.city| + 2..] == b.country
  {
    var r := b.city + ", " + b.country;
    assert r[..|b.city|] == b.city;
    assert r[|b.city|..|b.city| + 2] == ", ";
    assert r[|b.city| + 2..] == b.country;
    r
  }

  /** The script's `createAttestation` call for batch `b`, signed by
      `attester` at `now` seconds, with certification draw `rCerts`. */
  function ScriptCallArgs(b: Batch, attester: string, now: nat, rCerts: real, details: string): (r: AttestationsApi.CreateArgs)
    requires 0.0 <= rCerts < 1.0
    ensures r.stage == Some(Num(b.stage)) && r.previousAttestationId == Some(Str(b.previousAttestationId))
    ensures r.certifications.Some? && r.certifications.value.Strs?
    ensures 1 <= |r.certifications.value.items| <= 3
  {
    AttestationsApi.CreateArgs(Some(Str(b.batchId)), Some(Num(b.stage)), Some(Str(LocationText(b))),
      Some(Strs(SelectCertifications(rCerts))), Some(Str(details)), Some(Str(attester)),
      Some(Str(b.previousAttestationId)), Some(Num(now)))
  }

  /** Unlike the dialog's, the script's call is well typed whenever the
      previous attestation id is a `bytes32` (the zero hash of a new batch,
      or a uid), the stage is one of the six and the clock fits `uint256`;
      the indexer then hands every argument back. */
  lemma ScriptCallEncodes(b: Batch, attester: string, now: nat, rCerts: real, details: string)
    requires 0.0 <= rCerts < 1.0
    requires AttestationsApi.IsHexOfLength(attester, 40)
    requires AttestationsApi.IsHexOfLength(b.previousAttestationId, 64)
    requires 0 <= b.stage < |StageNames| && now < AttestationsApi.TwoTo256
    ensures AttestationsApi.Encodable(AttestationsApi.EncodeList(ScriptCallArgs(b, attester, now, rCerts, details)))
    ensures var args := ScriptCallArgs(b, attester, now, rCerts, details);
      ParseDecodedData(AttestationsApi.IndexedEntries(AttestationsApi.EncodeList(args)))
        == AttestationsApi.ArgsRecord(args)
  {
    var args := ScriptCallArgs(b, attester, now, rCerts, details);
    var items := AttestationsApi.EncodeList(args);
    forall k | 0 <= k < |items|
      ensures AttestationsApi.Conforms(items[k].value, items[k].abiType)
    {
    }
    AttestationsApi.EncodeDecodeRoundTrip(args);
  }

  /** A new batch's first call encodes. */
  lemma FirstCallEncodes(batchId: string, rCountry: real, rCity: real, attester: string, now: nat, rCerts: real, details: string)
    requires 0.0 <= rCountry < 1.0 && 0.0 <= rCity < 1.0 && 0.0 <= rCerts < 1.0
    requires AttestationsApi.IsHexOfLength(attester, 40) && now < AttestationsApi.TwoTo256
    ensures AttestationsApi.Encodable(AttestationsApi.EncodeList(
      ScriptCallArgs(InitBatch(batchId, rCountry, rCity), attester, now, rCerts, details)))
  {
    AttestationsApi.ZeroHashIsBytes32();
    ScriptCallEncodes(InitBatch(batchId, rCountry, rCity), attester, now, rCerts, details);
  }

  /** A batch the loop may still pick. */
  predicate Eligible(b: Batch)
  {
    b.stage < |StageNames|
  }

  /** The positions of the eligible batches, in order. */
  function EligibleIndices(batches: seq<Batch>): (ix: seq<int>)
    ensures forall k :: 0 <= k < |ix| ==> 0 <= ix[k] < |batches| && Eligible(batches[ix[k]])
    ensures forall i :: 0 <= i < |batches| && Eligible(batches[i]) ==> i in ix
  {
    EligibleIndicesComplete(batches);
    Filter(seq(|batches|, i => i), i => 0 <= i < |batches| && Eligible(batches[i]))
  }

  lemma EligibleIndicesComplete(batches: seq<Batch>)
    ensures forall i :: 0 <= i < |batches| && Eligible(batches[i]) ==>
      i in Filter(seq(|batches|, i => i), i => 0 <= i < |batches| && Eligible(batches[i]))
  {
    var all := seq(|batches|, i => i);
    var p := i => 0 <= i < |batches| && Eligible(batches[i]);
    forall i | 0 <= i < |batches| && Eligible(batches[i])
      ensures i in Filter(all, p)
    {
      assert all[i] == i && p(all[i]);
    }
  }

  /** What `updateBatch` hands back. */
  datatype Update = Update(uid: string, stage: int, nextCountry: string, nextCity: string)

  /** `updateBatch` as written: after attesting the current stage it looks up
      the next stage's country, which throws for a batch at Retail. `uid` is
      what `createAttestation` returned, `None` if it failed. */
  function UpdateBatchAsWritten(b: Batch, uid: Option<string>, rCountry: real, rCity: real): (u: Option<Update>)
    requires 0.0 <= rCountry < 1.0 && 0.0 <= rCity < 1.0
    ensures u.Some? ==> uid.Some? && u.value.uid == uid.value && u.value.stage == b.stage + 1
    ensures uid.Some? && 0 <= b.stage < |StageNames| - 1 ==> u.Some?
    ensures b.stage == |StageNames| - 1 ==> u.None?
  {
    match uid
    case None => None
    case Some(id) =>
      match GetRandomCountryForStage(b.stage + 1, b.country, rCountry)
      case None => None
      case Some(next) => Some(Update(id, b.stage + 1, next, GetRandomCity(next, rCity)))
  }

  /** `updateBatch` as its loop evidently means it: a batch at Retail is
      complete after its last attestation and stays where it is. */
  function UpdateBatch(b: Batch, uid: Option<string>, rCountry: real, rCity: real): (u: Option<Update>)
    requires 0.0 <= rCountry < 1.0 && 0.0 <= rCity < 1.0
    ensures u.Some? <==> uid.Some? && 0 <= b.stage < |StageNames|
    ensures u.Some? ==> u.value.uid == uid.value && u.value.stage == b.stage + 1
    ensures u.Some? && b.stage + 1 < |StageNames| ==>
      Some(u.value.nextCountry) == GetRandomCountryForStage(b.stage + 1, b.country, rCountry)
    ensures u.Some? && b.stage + 1 == |StageNames| ==> u.value.nextCountry == b.country && u.value.nextCity == b.city
  {
    if uid.None? || !(0 <= b.stage < |StageNames|) then None
    else if b.stage + 1 == |StageNames| then Some(Update(uid.value, b.stage + 1, b.country, b.city))
    else
      var next := GetRandomCountryForStage(b.stage + 1, b.country, rCountry).value;
      Some(Update(uid.value, b.stage + 1, next, GetRandomCity(next, rCity)))
  }

  /** Below Retail the two agree. */
  lemma UpdateBatchAgreesBelowRetail(b: Batch, uid: Option<string>, rCountry: real, rCity: real)
    requires 0.0 <= rCountry < 1.0 && 0.0 <= rCity < 1.0
    requires 0 <= b.stage < |StageNames| - 1
    ensures UpdateBatch(b, uid, rCountry, rCity) == UpdateBatchAsWritten(b, uid, rCountry, rCity)
  {
  }

  /** The loop's bookkeeping after a successful update. */
  function Apply(b: Batch, u: Update): (b': Batch)
    ensures b'.batchId == b.batchId && b'.previousAttestationId == u.uid && b'.stage == u.stage
  {
    b.(previousAttestationId := u.uid, stage := u.stage, country := u.nextCountry, city := u.nextCity)
  }

  /** The random draws and the outcome of `createAttestation` for one pass
      of the loop. */
  datatype Draws = Draws(pick: real, uid: Option<string>, country: real, city: real)

  predicate ValidDraws(d: Draws)
  {
    0.0 <= d.pick < 1.0 && 0.0 <= d.country < 1.0 && 0.0 <= d.city < 1.0
  }

  /** One pass of the loop: the batch picked (if any batch is eligible), the
      stage attested on chain, and the batches afterwards. `intended` picks
      the evidently intended update over the one written. */
  datatype Pass = Pass(picked: Option<int>, attested: Option<int>, batches: seq<Batch>)

  function SimulationPass(batches: seq<Batch>, d: Draws, intended: bool): (p: Pass)
    requires ValidDraws(d)
    ensures |p.batches| == |batches|
    ensures p.picked.None? <==> forall i :: 0 <= i < |batches| ==> !Eligible(batches[i])
    ensures p.picked.Some? ==> 0 <= p.picked.value < |batches| && Eligible(batches[p.picked.value])
    ensures p.picked.None? ==> p.batches == batches && p.attested.None?
    ensures p.picked.Some? ==> forall i :: 0 <= i < |batches| && i != p.picked.value ==> p.batches[i] == batches[i]
    ensures p.attested.Some? ==> p.picked.Some? && d.uid.Some? && p.attested.value == batches[p.picked.value].stage
  {
    var ix := EligibleIndices(batches);
    match GetRandomElement(ix, d.pick)
    case None =>
      assert forall i :: 0 <= i < |batches| ==> !Eligible(batches[i]);
      Pass(None, None, batches)
    case Some(i) =>
      assert i in ix;
      var b := batches[i];
      var u := if intended then UpdateBatch(b, d.uid, d.country, d.city)
               else UpdateBatchAsWritten(b, d.uid, d.country, d.city);
      var attested := if d.uid.Some? then Some(b.stage) else None;
      match u
      case Some(up) => Pass(Some(i), attested, batches[i := Apply(b, up)])
      case None => Pass(Some(i), attested, batches)
  }

  /** Every batch the script creates starts at a stage in range; stages only
      grow by one per pass. */
  predicate StagesInRange(batches: seq<Batch>)
  {
    forall i :: 0 <= i < |batches| ==> 0 <= batches[i].stage <= |StageNames|
  }

  /** A successful intended pass moves the picked batch one stage on, with
      the new uid as its previous attestation. */
  lemma PassAdvancesPickedBatch(batches: seq<Batch>, d: Draws)
    requires ValidDraws(d) && StagesInRange(batches) && d.uid.Some?
    requires SimulationPass(batches, d, true).picked.Some?
    ensures var p := SimulationPass(batches, d, true);
      var i := p.picked.value;
      p.batches[i].stage == batches[i].stage + 1
      && p.batches[i].previousAttestationId == d.uid.value
      && p.batches[i].batchId == batches[i].batchId
    ensures StagesInRange(SimulationPass(batches, d, true).batches)
  {
  }

  /** The stages still ahead of the batches. */
  function Remaining(batches: seq<Batch>): int
    decreases |batches|
  {
    if |batches| == 0 then 0
    else Remaining(batches[..|batches| - 1]) + (|StageNames| - batches[|batches| - 1].stage)
  }

  lemma {:induction false} RemainingUpdate(batches: seq<Batch>, i: int, b: Batch)
    requires 0 <= i < |batches|
    ensures Remaining(batches[i := b]) == Remaining(batches) + batches[i].stage - b.stage
    decreases |batches|
  {
    var n := |batches| - 1;
    if i < n {
      assert batches[i := b][..n] == batches[..n][i := b];
      RemainingUpdate(batches[..n], i, b);
    } else {
      assert batches[i := b][..n] == batches[..n];
    }
  }

  lemma {:induction false} RemainingNonNegative(batches: seq<Batch>)
    requires StagesInRange(batches)
    ensures Remaining(batches) >= 0
    ensures Remaining(batches) == 0 <==> forall i :: 0 <= i < |batches| ==> !Eligible(batches[i])
    decreases |batches|
  {
    if |batches| > 0 {
      var n := |batches| - 1;
      assert StagesInRange(batches[..n]) by {
        forall i | 0 <= i < n ensures 0 <= batches[..n][i].stage <= |StageNames| {
          assert batches[..n][i] == batches[i];
        }
      }
      var front := batches[..n];
      RemainingNonNegative(front);
      assert forall i :: 0 <= i < n ==> front[i] == batches[i];
      if forall i :: 0 <= i < |batches| ==> !Eligible(batches[i]) {
        assert forall i :: 0 <= i < n ==> !Eligible(front[i]);
      }
      if Remaining(batches) == 0 {
        assert !Eligible(batches[n]);
        forall i | 0 <= i < |batches| ensures !Eligible(batches[i]) {
          if i < n {
            assert !Eligible(front[i]);
          }
        }
      }
    }
  }

  /** With the intended update every successful pass brings the simulation
      one stage closer to the end, where no batch is eligible. */
  lemma IntendedPassMakesProgress(batches: seq<Batch>, d: Draws)
    requires ValidDraws(d) && StagesInRange(batches) && d.uid.Some?
    requires exists i :: 0 <= i < |batches| && Eligible(batches[i])
    ensures Remaining(SimulationPass(batches, d, true).batches) == Remaining(batches) - 1
    ensures Remaining(batches) > 0
  {
    var p := SimulationPass(batches, d, true);
    RemainingNonNegative(batches);
    PassAdvancesPickedBatch(batches, d);
    AdvanceLowersRemaining(batches, p.batches, p.picked.value);
  }

  /** Moving one batch a stage on, and nothing else, lowers the stages
      still ahead by one. */
  lemma AdvanceLowersRemaining(batches: seq<Batch>, after: seq<Batch>, i: int)
    requires 0 <= i < |batches| == |after|
    requires forall j :: 0 <= j < |batches| && j != i ==> after[j] == batches[j]
    requires after[i].stage == batches[i].stage + 1
    ensures Remaining(after) == Remaining(batches) - 1
  {
    assert after == batches[i := after[i]];
    RemainingUpdate(batches, i, after[i]);
  }

  /** As written, a batch at Retail is attested again every time it is
      picked but never leaves Retail, so it stays eligible for ever. */
  lemma RetailBatchNeverCompletes(batches: seq<Batch>, d: Draws)
    requires ValidDraws(d) && d.uid.Some?
    requires SimulationPass(batches, d, false).picked.Some?
    requires batches[SimulationPass(batches, d, false).picked.value].stage == |StageNames| - 1
    ensures var p := SimulationPass(batches, d, false);
      p.batches == batches && p.attested == Some(|StageNames| - 1)
      && Eligible(p.batches[p.picked.value])
  {
  }

  /** As written no batch ever gets past Retail, so the "all batches
      completed" branch is unreachable. */
  lemma AsWrittenStagesStayBelowSix(batches: seq<Batch>, d: Draws)
    requires ValidDraws(d)
    requires forall i :: 0 <= i < |batches| ==> 0 <= batches[i].stage < |StageNames|
    ensures forall i :: 0 <= i < |SimulationPass(batches, d, false).batches| ==>
      0 <= SimulationPass(batches, d, false).batches[i].stage < |StageNames|
    ensures |batches| > 0 ==> SimulationPass(batches, d, false).picked.Some?
  {
    if |batches| > 0 {
      assert Eligible(batches[0]);
    }
  }
}
