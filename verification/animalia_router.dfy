/** The Animalia router (src/server/api/routers/animalia.ts): the livestock
    listing, the two registration handlers with their birth-year enrichment
    and their error rules, and the re-mapping of the registry's `individ`
    strings. Each handler is a function of the results its fetches return;
    a `Run` records which remote calls the handler makes, in order, and what
    it answers. */
module AnimaliaRouter {
  import opened Wrappers
  import opened JsText
  import opened AnimaliaCtx

  // ---------------------------------------------------------------------
  // Handler errors
  // ---------------------------------------------------------------------

  /** The tRPC error codes the handlers answer with. */
  datatype TrpcCode = Forbidden | InternalServerError | BadRequest

  /** Why a handler failed. */
  datatype HandlerError =
    | NotLoggedIn                                // no Animalia account: FORBIDDEN
    | ListingFetchFailed(cause: FetchError)      // plain `Error` thrown by the listing
    | LivestockUnavailable(message: Option<string>) // livestock fetch failed before a registration
    | FetalRegistrationFailed(cause: FetchError) // the fetal-count registration call failed
    | InvalidInput                               // the input schema rejected the batch

  function Code(e: HandlerError): TrpcCode {
    match e
    case NotLoggedIn => Forbidden
    case ListingFetchFailed(_) => InternalServerError
    case LivestockUnavailable(_) => InternalServerError
    case FetalRegistrationFailed(_) => BadRequest
    case InvalidInput => BadRequest
  }

  // ---------------------------------------------------------------------
  // Livestock listing
  // ---------------------------------------------------------------------

  /** The listing's input; an absent limit or offset takes its default. */
  datatype ListInput = ListInput(limit: Option<int>, offset: Option<int>, fromBirthYear: Option<string>)

  const DefaultLimit := 10
  const DefaultOffset := 0

  function OrDefault(x: Option<int>, default: int): int {
    match x
    case None => default
    case Some(v) => v
  }

  /** The `livestock` query: without an account it is refused, a failed
      fetch is thrown, and otherwise the page `data.slice(offset, limit)` is
      returned. */
  function Livestock(hasAccount: bool, input: ListInput, fetched: Fetch<seq<Sheep>>): (r: Result<seq<Sheep>, HandlerError>)
    ensures !hasAccount ==> r == Err(NotLoggedIn)
    ensures hasAccount && fetched.Err? ==> r == Err(ListingFetchFailed(fetched.error))
    ensures hasAccount && fetched.Ok? ==> r.Ok? && |r.value| <= |fetched.value|
    ensures r.Err? ==> (Code(r.error) == Forbidden <==> !hasAccount)
  {
    if !hasAccount then Err(NotLoggedIn)
    else
      match fetched
      case Err(e) => Err(ListingFetchFailed(e))
      case Ok(data) => Ok(Slice(data, OrDefault(input.offset, DefaultOffset), OrDefault(input.limit, DefaultLimit)))
  }

  /** With a non-negative offset and limit, the page holds the records at
      indices offset <= i < min(limit, length), in order, and is empty when
      the limit does not exceed the offset. */
  lemma LivestockPage(offset: int, limit: int, fromBirthYear: Option<string>, data: seq<Sheep>)
    requires 0 <= offset && 0 <= limit
    ensures var page := Livestock(true, ListInput(Some(limit), Some(offset), fromBirthYear), Ok(data)).value;
      && |page| == (if offset < Min(limit, |data|) then Min(limit, |data|) - offset else 0)
      && (forall i :: offset <= i < Min(limit, |data|) ==> page[i - offset] == data[i])
      && (limit <= offset ==> page == [])
  {
    assert Livestock(true, ListInput(Some(limit), Some(offset), fromBirthYear), Ok(data)).value == Slice(data, offset, limit);
    SliceForward(data, offset, limit);
  }

  /** `slice` with non-negative bounds. */
  lemma SliceForward(data: seq<Sheep>, off: int, lim: int)
    requires 0 <= off && 0 <= lim
    ensures var page := Slice(data, off, lim);
      && |page| == (if off < Min(lim, |data|) then Min(lim, |data|) - off else 0)
      && (forall i :: off <= i < Min(lim, |data|) ==> page[i - off] == data[i])
      && (lim <= off ==> page == [])
  {
    var page := Slice(data, off, lim);
    var lo, hi := RelativeIndex(off, |data|), RelativeIndex(lim, |data|);
    assert lo == Min(off, |data|) && hi == Min(lim, |data|);
    assert |page| == Max(hi - lo, 0);
    if off < hi {
      assert lo == off;
      forall i | off <= i < hi ensures page[i - off] == data[i] {
        assert page[i - off] == data[lo + (i - off)];
      }
    }
  }

  /** Without a limit or offset, the page is the first ten records (or all of
      them, when there are fewer). */
  lemma LivestockDefaultPage(data: seq<Sheep>, fromBirthYear: Option<string>)
    ensures Livestock(true, ListInput(None, None, fromBirthYear), Ok(data)).value == data[..Min(DefaultLimit, |data|)]
  {
    var page := Livestock(true, ListInput(None, None, fromBirthYear), Ok(data)).value;
    assert |page| == Min(DefaultLimit, |data|);
    assert forall k :: 0 <= k < |page| ==> page[k] == data[k];
  }

  // ---------------------------------------------------------------------
  // Birth-year enrichment
  // ---------------------------------------------------------------------

  /** `animalId.split(" ")[1]?.substring(7, 20)`: what the enrichment compares
      with a record's ear tag. */
  function EarTagKey(eid: string): (r: Option<string>)
    ensures r.None? <==> ' ' !in eid
    ensures r.Some? ==> |r.value| <= IndividualEnd - MemberEnd
  {
    match SecondToken(eid)
    case None => None
    case Some(tok) => Some(Substring(tok, MemberEnd, IndividualEnd))
  }

  /** The enrichment key is the translator's individual number, but it is
      compared with `oremerke`, not with `fodselindividnr`, and the member
      number plays no part. */
  lemma EarTagKeyIsIndividnr(eid: string)
    ensures EarTagKey(eid) == GetEIDParts(eid).individnr
  {
  }

  /** A pasture entry with the birth year added (`{ ...req, birthYear }`). */
  datatype EnrichedPasture = EnrichedPasture(animalId: string, date: string, pastureId: string, birthYear: BirthYear) {
    /** The fields a reader of a `PastureEntry` sees. */
    function AsEntry(): PastureEntry {
      PastureEntry(animalId, date, pastureId)
    }
  }

  /** A fetal entry with the birth year added (`{ ...req, birthYear }`). */
  datatype EnrichedFetal = EnrichedFetal(ewe: string, date: string, fetusCount: int, birthYear: BirthYear) {
    /** The fields a reader of a `FetalEntry` sees. */
    function AsEntry(): FetalEntry {
      FetalEntry(ewe, date, fetusCount)
    }
  }

  /** The pasture enrichment: one record per registration, in order, each
      keeping every original field and adding the birth year of the first
      sheep whose ear tag is the registration's individual number. */
  function EnrichPastures(regs: seq<PastureEntry>, stock: seq<Sheep>): (r: seq<EnrichedPasture>)
    ensures |r| == |regs|
    ensures forall i :: 0 <= i < |regs| ==> r[i].AsEntry() == regs[i]
    ensures forall i :: 0 <= i < |regs| ==> r[i].birthYear == BirthYearOf(stock, ByEarTag(EarTagKey(regs[i].animalId)))
  {
    seq(|regs|, i requires 0 <= i < |regs| =>
      EnrichedPasture(regs[i].animalId, regs[i].date, regs[i].pastureId,
                      BirthYearOf(stock, ByEarTag(EarTagKey(regs[i].animalId)))))
  }

  /** The fetal-count enrichment: the same rule, keyed on the ewe. */
  function EnrichFetals(regs: seq<FetalEntry>, stock: seq<Sheep>): (r: seq<EnrichedFetal>)
    ensures |r| == |regs|
    ensures forall i :: 0 <= i < |regs| ==> r[i].AsEntry() == regs[i]
    ensures forall i :: 0 <= i < |regs| ==> r[i].birthYear == BirthYearOf(stock, ByEarTag(EarTagKey(regs[i].ewe)))
  {
    seq(|regs|, i requires 0 <= i < |regs| =>
      EnrichedFetal(regs[i].ewe, regs[i].date, regs[i].fetusCount,
                    BirthYearOf(stock, ByEarTag(EarTagKey(regs[i].ewe)))))
  }

  /** The enriched registrations as the registration call reads them. */
  function PastureEntries(xs: seq<EnrichedPasture>): seq<PastureEntry> {
    seq(|xs|, i requires 0 <= i < |xs| => xs[i].AsEntry())
  }

  function FetalEntries(xs: seq<EnrichedFetal>): seq<FetalEntry> {
    seq(|xs|, i requires 0 <= i < |xs| => xs[i].AsEntry())
  }

  /** The birth year of pasture registration i is that of the first sheep
      whose ear tag equals the registration's individual number; with no
      such sheep it is empty. */
  lemma EnrichPastureYear(regs: seq<PastureEntry>, stock: seq<Sheep>, i: nat)
    requires i < |regs|
    ensures forall k :: 0 <= k < |stock| && stock[k].oremerke == EarTagKey(regs[i].animalId)
                        && (forall j :: 0 <= j < k ==> stock[j].oremerke != EarTagKey(regs[i].animalId))
                        ==> EnrichPastures(regs, stock)[i].birthYear == YearOf(stock[k].fodselaar)
    ensures (forall j :: 0 <= j < |stock| ==> stock[j].oremerke != EarTagKey(regs[i].animalId))
            ==> EnrichPastures(regs, stock)[i].birthYear == Unresolved
  {
    var key := ByEarTag(EarTagKey(regs[i].animalId));
    forall k | 0 <= k < |stock| && stock[k].oremerke == EarTagKey(regs[i].animalId)
               && (forall j :: 0 <= j < k ==> stock[j].oremerke != EarTagKey(regs[i].animalId))
      ensures EnrichPastures(regs, stock)[i].birthYear == YearOf(stock[k].fodselaar)
    {
      BirthYearOfFirst(stock, key, k);
    }
  }

  /** The same rule for fetal-count registration i, keyed on the ewe. */
  lemma EnrichFetalYear(regs: seq<FetalEntry>, stock: seq<Sheep>, i: nat)
    requires i < |regs|
    ensures forall k :: 0 <= k < |stock| && stock[k].oremerke == EarTagKey(regs[i].ewe)
                        && (forall j :: 0 <= j < k ==> stock[j].oremerke != EarTagKey(regs[i].ewe))
                        ==> EnrichFetals(regs, stock)[i].birthYear == YearOf(stock[k].fodselaar)
    ensures (forall j :: 0 <= j < |stock| ==> stock[j].oremerke != EarTagKey(regs[i].ewe))
            ==> EnrichFetals(regs, stock)[i].birthYear == Unresolved
  {
    var key := ByEarTag(EarTagKey(regs[i].ewe));
    forall k | 0 <= k < |stock| && stock[k].oremerke == EarTagKey(regs[i].ewe)
               && (forall j :: 0 <= j < k ==> stock[j].oremerke != EarTagKey(regs[i].ewe))
      ensures EnrichFetals(regs, stock)[i].birthYear == YearOf(stock[k].fodselaar)
    {
      BirthYearOfFirst(stock, key, k);
    }
  }

  /** The registration call reads back exactly the original registrations:
      the added birth year never reaches the wire. */
  lemma EnrichmentDropped(pastures: seq<PastureEntry>, fetals: seq<FetalEntry>, stock: seq<Sheep>)
    ensures PastureBody(PastureEntries(EnrichPastures(pastures, stock))) == PastureBody(pastures)
    ensures FetalBody(FetalEntries(EnrichFetals(fetals, stock))) == FetalBody(fetals)
  {
    assert PastureEntries(EnrichPastures(pastures, stock)) == pastures;
    assert FetalEntries(EnrichFetals(fetals, stock)) == fetals;
  }

  // ---------------------------------------------------------------------
  // Re-mapping the registry's identifiers
  // ---------------------------------------------------------------------

  /** `individ.split("/")[1]?.split(" ")[0] ?? ""`: the text after the first
      "/", cut at the next "/" or space; empty when there is no "/". */
  function ExtractIndivid(individ: string): (r: string)
    ensures '/' !in individ ==> r == ""
    ensures '/' in individ ==> r == TakeUntil(TakeUntil(DropThrough(individ, '/'), '/'), ' ')
    ensures '/' !in r && ' ' !in r
  {
    SecondPiece(individ, '/');
    match At(Split(individ, '/'), 1)
    case None => ""
    case Some(seg) =>
      SplitHead(seg, ' ');
      TakeUntilInside(seg, ' ', '/');
      Split(seg, ' ')[0]
  }

  /** Round trip: re-mapping an id in the translator's layout, followed by any
      suffix, gives back the individual number, provided the member number
      holds no "/" and the individual number no "/" and no space. */
  lemma ExtractFormatted(medlemsnr: string, individnr: string, birthYear: BirthYear, suffix: string)
    requires '/' !in medlemsnr && '/' !in individnr && ' ' !in individnr
    ensures ExtractIndivid(FormatAnimaliaId(Some(medlemsnr), Some(individnr), birthYear) + suffix) == individnr
  {
    var tail := " (" + RenderBirthYear(birthYear) + ")" + suffix;
    var s := FormatAnimaliaId(Some(medlemsnr), Some(individnr), birthYear) + suffix;
    FormatLayout(medlemsnr, individnr, birthYear, suffix);
    SeparatorAfter(medlemsnr, individnr + tail, '/');
    assert DropThrough(s, '/') == individnr + tail;
    CutBeforeSpace(individnr, tail);
  }

  /** The id, split at its first "/". */
  lemma FormatLayout(medlemsnr: string, individnr: string, birthYear: BirthYear, suffix: string)
    ensures FormatAnimaliaId(Some(medlemsnr), Some(individnr), birthYear) + suffix
         == medlemsnr + ['/'] + (individnr + (" (" + RenderBirthYear(birthYear) + ")" + suffix))
  {
  }

  /** A separator-free text followed by a space is cut back to itself. */
  lemma CutBeforeSpace(text: string, tail: string)
    requires '/' !in text && ' ' !in text
    requires |tail| > 0 && tail[0] == ' '
    ensures TakeUntil(TakeUntil(text + tail, '/'), ' ') == text
  {
    TakeUntilAppend(text, tail, '/');
    var t := TakeUntil(tail, '/');
    assert t == [' '] + TakeUntil(tail[1..], '/');
    TakeUntilAppend(text, t, ' ');
    assert TakeUntil(t, ' ') == [];
    assert text + [] == text;
  }

  /** End to end: for an EID with a space and no "/", re-mapping the
      translator's id gives back the id's individual number. */
  lemma ExtractAfterTranslate(eids: seq<string>, stock: seq<Sheep>, i: nat)
    requires i < |eids| && ' ' in eids[i] && '/' !in eids[i]
    ensures var e := TranslateToAnimaliaIds(eids, Ok(stock)).value[i];
      e.sheepnumber.Some? && ExtractIndivid(e.animaliaID) == e.sheepnumber.value
  {
    var eid := eids[i];
    var e := TranslateToAnimaliaIds(eids, Ok(stock)).value[i];
    var tok := TakeUntil(DropThrough(eid, ' '), ' ');
    TakeUntilInside(DropThrough(eid, ' '), ' ', '/');
    DropThroughInside(eid, ' ', '/');
    assert '/' !in tok;
    var m := tok[..Min(MemberEnd, |tok|)];
    var n := tok[Min(MemberEnd, |tok|)..Min(IndividualEnd, |tok|)];
    assert forall x :: x in m ==> x in tok;
    assert forall x :: x in n ==> x in tok;
    ExtractFormatted(m, n, e.birthYear, []);
    assert e.animaliaID == FormatAnimaliaId(Some(m), Some(n), e.birthYear) + [];
  }

  /** The registry's response with every `individ` re-mapped: same length,
      same order, same errors. */
  function RemapOutcomes(data: seq<RegistrationOutcome>): (r: seq<RegistrationOutcome>)
    ensures |r| == |data|
    ensures forall k :: 0 <= k < |data| ==> r[k].errors == data[k].errors
    ensures forall k :: 0 <= k < |data| ==> r[k].individ == ExtractIndivid(data[k].individ)
  {
    seq(|data|, k requires 0 <= k < |data| => RegistrationOutcome(ExtractIndivid(data[k].individ), data[k].errors))
  }

  /** The example response `1234567/0000001 (2021) extra` maps to `0000001`.
      The literal comes in as a parameter fixed by the precondition so that
      the verifier reasons about `split` on it symbolically instead of
      unfolding it character by character. */
  lemma RemapExample(individ: string)
    requires individ == "1234567/0000001 (2021) extra"
    ensures RemapOutcomes([RegistrationOutcome(individ, [])]) == [RegistrationOutcome("0000001", [])]
  {
    FormatExample();
    assert individ == FormatAnimaliaId(Some("1234567"), Some("0000001"), Year(2021)) + " extra";
    ExtractFormatted("1234567", "0000001", Year(2021), " extra");
  }

  // ---------------------------------------------------------------------
  // Registration handlers
  // ---------------------------------------------------------------------

  /** A remote call a handler makes. */
  datatype Call<W> = FetchLivestock | Submit(body: seq<W>)

  /** What a handler does: the calls it makes, in order, and its answer. */
  datatype Run<W> = Run(calls: seq<Call<W>>, result: Result<seq<RegistrationOutcome>, HandlerError>)

  /** The `registerPasture` mutation. A failed livestock fetch aborts with
      INTERNAL_SERVER_ERROR before anything is submitted; otherwise the
      registrations go out in one call and the registry's answer is returned
      as it is, or as the empty list when that call failed. */
  function RegisterPasture(regs: seq<PastureEntry>, livestock: Fetch<seq<Sheep>>, response: Fetch<seq<RegistrationOutcome>>): (r: Run<PastureWire>)
    ensures livestock.Err? ==> r.calls == [FetchLivestock]
    ensures livestock.Err? ==> r.result == Err(LivestockUnavailable(livestock.error.message))
    ensures livestock.Ok? ==> r.calls == [FetchLivestock, Submit(PastureBody(regs))]
    ensures livestock.Ok? && response.Ok? ==> r.result == Ok(response.value)
    ensures livestock.Ok? && response.Err? ==> r.result == Ok([])
    ensures r.result.Err? ==> Code(r.result.error) == InternalServerError
  {
    match livestock
    case Err(e) => Run([FetchLivestock], Err(LivestockUnavailable(e.message)))
    case Ok(stock) =>
      var enriched := EnrichPastures(regs, stock);
      EnrichmentDropped(regs, [], stock);
      var answer := match response case Ok(data) => data case Err(_) => [];
      Run([FetchLivestock, Submit(PastureBody(PastureEntries(enriched)))], Ok(answer))
  }

  /** Every count in the batch is at least zero. */
  predicate ValidFetalBatch(regs: seq<FetalEntry>) {
    forall i :: 0 <= i < |regs| ==> ValidFetalEntry(regs[i])
  }

  /** The `registerFetalCount` mutation. A negative count is rejected before
      any call; a failed livestock fetch aborts with INTERNAL_SERVER_ERROR
      before anything is submitted; a failed registration answers
      BAD_REQUEST; otherwise the registry's answer comes back with every
      `individ` re-mapped. */
  function RegisterFetalCount(regs: seq<FetalEntry>, livestock: Fetch<seq<Sheep>>, response: Fetch<seq<RegistrationOutcome>>): (r: Run<FetalWire>)
    ensures !ValidFetalBatch(regs) ==> r.calls == [] && r.result == Err(InvalidInput)
    ensures ValidFetalBatch(regs) && livestock.Err? ==> r.calls == [FetchLivestock]
    ensures ValidFetalBatch(regs) && livestock.Err? ==> r.result == Err(LivestockUnavailable(livestock.error.message))
    ensures ValidFetalBatch(regs) && livestock.Ok? ==> r.calls == [FetchLivestock, Submit(FetalBody(regs))]
    ensures ValidFetalBatch(regs) && livestock.Ok? && response.Err? ==> r.result == Err(FetalRegistrationFailed(response.error))
    ensures ValidFetalBatch(regs) && livestock.Ok? && response.Ok? ==> r.result == Ok(RemapOutcomes(response.value))
  {
    if !ValidFetalBatch(regs) then Run([], Err(InvalidInput))
    else
      match livestock
      case Err(e) => Run([FetchLivestock], Err(LivestockUnavailable(e.message)))
      case Ok(stock) =>
        var enriched := EnrichFetals(regs, stock);
        EnrichmentDropped([], regs, stock);
        var calls := [FetchLivestock, Submit(FetalBody(FetalEntries(enriched)))];
        match response
        case Err(e) => Run(calls, Err(FetalRegistrationFailed(e)))
        case Ok(data) => Run(calls, Ok(RemapOutcomes(data)))
  }

  /** One negative count rejects the whole batch before any remote call,
      whatever the fetches would have returned. */
  lemma NegativeCountRejectsBatch(regs: seq<FetalEntry>, i: nat,
                                  livestock: Fetch<seq<Sheep>>, response: Fetch<seq<RegistrationOutcome>>)
    requires i < |regs| && regs[i].fetusCount < 0
    ensures RegisterFetalCount(regs, livestock, response) == Run([], Err(InvalidInput))
  {
    assert !ValidFetalEntry(regs[i]);
  }

  /** No partial submission: whenever a handler submits, the livestock fetch
      succeeded (and, for fetal counts, every count passed the bound), and
      the one submission carries every registration. */
  lemma SubmitOnlyAfterLivestock(pastures: seq<PastureEntry>, fetals: seq<FetalEntry>,
                                 livestock: Fetch<seq<Sheep>>, response: Fetch<seq<RegistrationOutcome>>)
    ensures forall c :: c in RegisterPasture(pastures, livestock, response).calls && c.Submit? ==>
      livestock.Ok? && |c.body| == |pastures|
    ensures forall c :: c in RegisterFetalCount(fetals, livestock, response).calls && c.Submit? ==>
      livestock.Ok? && ValidFetalBatch(fetals) && |c.body| == |fetals|
  {
  }

  /** The fetal-count handler, on that same example (counted 2 on
      2024-03-01), submits the ewe's EID as it was given, not the translated
      id: the enrichment's birth year is dropped on the wire. */
  lemma FetalCountExample(stock: seq<Sheep>, response: Fetch<seq<RegistrationOutcome>>)
    ensures RegisterFetalCount([FetalEntry("555 12345670000001", "2024-03-01", 2)], Ok(stock), response).calls
         == [FetchLivestock, Submit([FetalWire("555 12345670000001", "2024-03-01", 2)])]
  {
    var regs := [FetalEntry("555 12345670000001", "2024-03-01", 2)];
    assert ValidFetalBatch(regs);
    assert FetalBody(regs) == [FetalWire("555 12345670000001", "2024-03-01", 2)];
  }
}
