/** The Animalia context (src/server/api/animalia/animalia-ctx.ts): the data the
    registry exchanges, the EID codec, the translation of EIDs to the
    registry's compact ids, and the shaping of the registration request
    bodies. Every fetch is an input value; nothing here performs I/O. */
module AnimaliaCtx {
  import opened Wrappers
  import opened JsText

  // ---------------------------------------------------------------------
  // Data the registry exchanges
  // ---------------------------------------------------------------------

  /** The error half of a fetch result: HTTP status, status text and an
      optional message. */
  datatype FetchError = FetchError(message: Option<string>, status: int, statusText: string)

  /** A fetch result: the parsed data, or the error. */
  type Fetch<T> = Result<T, FetchError>

  /** One livestock record, reduced to the four optional fields the core reads. */
  datatype Sheep = Sheep(
    oremerke: Option<string>,
    fodselindividnr: Option<string>,
    fodselmedlemsnr: Option<string>,
    fodselaar: Option<int>)

  /** A pasture registration as the caller writes it. */
  datatype PastureEntry = PastureEntry(animalId: string, date: string, pastureId: string)

  /** A fetal-count registration as the caller writes it. */
  datatype FetalEntry = FetalEntry(ewe: string, date: string, fetusCount: int)

  /** The schema bound on a fetal entry: the count is at least zero. */
  predicate ValidFetalEntry(e: FetalEntry) {
    e.fetusCount >= 0
  }

  /** One element of the `registreringer` body of a fetal-count registration. */
  datatype FetalWire = FetalWire(soye: string, dato: string, antallFoster: int)

  /** One element of the `registreringer` body of a pasture registration. */
  datatype PastureWire = PastureWire(individ: string, dato: string, beiteBinge: string)

  datatype FieldError = FieldError(field: string, message: string)

  /** One element of the registry's response to a registration; no errors
      means the item was accepted. */
  datatype RegistrationOutcome = RegistrationOutcome(individ: string, errors: seq<FieldError>)

  // ---------------------------------------------------------------------
  // EID codec
  // ---------------------------------------------------------------------

  const MemberEnd := 7
  const IndividualEnd := 20

  /** `ewe.split(" ")[1]`: the second space-separated token of an EID,
      `undefined` exactly when the EID has no space. */
  function SecondToken(eid: string): (r: Option<string>)
    ensures r.None? <==> ' ' !in eid
    ensures ' ' in eid ==> r == Some(TakeUntil(DropThrough(eid, ' '), ' '))
  {
    SecondPiece(eid, ' ');
    At(Split(eid, ' '), 1)
  }

  /** The member and individual numbers parsed out of an EID; `None` where the
      EID has no second token. */
  datatype EidParts = EidParts(individnr: Option<string>, medlemsnr: Option<string>)

  /** `getEIDParts`: characters [0,7) of the second token are the member
      number and characters [7,20) the individual number, clamped to the
      token's length. */
  function GetEIDParts(ewe: string): (r: EidParts)
    ensures r.individnr.None? <==> ' ' !in ewe
    ensures r.medlemsnr.None? <==> ' ' !in ewe
    ensures ' ' in ewe ==>
      var tok := TakeUntil(DropThrough(ewe, ' '), ' ');
      && r.medlemsnr == Some(tok[..Min(MemberEnd, |tok|)])
      && r.individnr == Some(tok[Min(MemberEnd, |tok|)..Min(IndividualEnd, |tok|)])
    ensures r.individnr.Some? ==> |r.individnr.value| <= IndividualEnd - MemberEnd
    ensures r.medlemsnr.Some? ==> |r.medlemsnr.value| <= MemberEnd
  {
    match SecondToken(ewe)
    case None => EidParts(None, None)
    case Some(tok) => EidParts(Some(Substring(tok, MemberEnd, IndividualEnd)), Some(Substring(tok, 0, MemberEnd)))
  }

  /** The number of the member part followed by the individual part is the
      token's first twenty characters: parsing drops nothing in between. */
  lemma EidPartsCover(ewe: string)
    requires ' ' in ewe
    ensures var tok := TakeUntil(DropThrough(ewe, ' '), ' ');
      GetEIDParts(ewe).medlemsnr.value + GetEIDParts(ewe).individnr.value == tok[..Min(IndividualEnd, |tok|)]
  {
    var tok := TakeUntil(DropThrough(ewe, ' '), ' ');
    var m := Min(MemberEnd, |tok|);
    var n := Min(IndividualEnd, |tok|);
    assert tok[..n] == tok[..m] + tok[m..n];
  }

  /** The birth year the lookup yields: a number, or the empty string when no
      record (or no year) is found. */
  datatype BirthYear = Unresolved | Year(year: int)

  function YearOf(fodselaar: Option<int>): BirthYear {
    match fodselaar
    case None => Unresolved
    case Some(y) => Year(y)
  }

  /** `${birthYear}`: the number's digits, or the empty string. */
  function RenderBirthYear(b: BirthYear): (r: string)
    ensures b.Unresolved? <==> r == ""
    ensures ' ' !in r && '/' !in r
  {
    match b
    case Unresolved => ""
    case Year(y) => IntToString(y)
  }

  /** The compact registry id `medlemsnr/individnr (birthYear)`, where an
      absent part renders as "undefined". */
  function FormatAnimaliaId(medlemsnr: Option<string>, individnr: Option<string>, birthYear: BirthYear): string {
    RenderOptional(medlemsnr) + "/" + RenderOptional(individnr) + " (" + RenderBirthYear(birthYear) + ")"
  }

  /** The member number is read back as the text before the id's first "/",
      when it holds no "/" itself. */
  lemma FormatMemberFirst(medlemsnr: Option<string>, individnr: Option<string>, birthYear: BirthYear)
    requires '/' !in RenderOptional(medlemsnr)
    ensures '/' in FormatAnimaliaId(medlemsnr, individnr, birthYear)
    ensures TakeUntil(FormatAnimaliaId(medlemsnr, individnr, birthYear), '/') == RenderOptional(medlemsnr)
  {
    var member := RenderOptional(medlemsnr);
    var rest := RenderOptional(individnr) + " (" + RenderBirthYear(birthYear) + ")";
    assert FormatAnimaliaId(medlemsnr, individnr, birthYear) == member + ['/'] + rest;
    SeparatorAfter(member, rest, '/');
  }

  /** The second token of `flock tok rest`, where `rest` is empty or starts
      with a space, is `tok`. */
  lemma {:induction false} SecondTokenOf(flock: string, tok: string, rest: string)
    requires ' ' !in flock && ' ' !in tok
    requires rest == [] || rest[0] == ' '
    ensures ' ' in flock + " " + tok + rest
    ensures TakeUntil(DropThrough(flock + " " + tok + rest, ' '), ' ') == tok
  {
    var eid := flock + " " + tok + rest;
    assert eid == flock + [' '] + (tok + rest);
    SeparatorAfter(flock, tok + rest, ' ');
    TakeUntilAppend(tok, rest, ' ');
    if rest == [] {
      assert tok + rest == tok;
    }
  }

  /** A second token of seven member digits followed by at most thirteen
      more characters splits exactly there. */
  lemma PartsOfToken(eid: string, member: string, individual: string)
    requires |member| == MemberEnd && |individual| <= IndividualEnd - MemberEnd
    requires SecondToken(eid) == Some(member + individual)
    ensures GetEIDParts(eid) == EidParts(Some(individual), Some(member))
  {
    var tok := member + individual;
    assert GetEIDParts(eid) == EidParts(Some(Substring(tok, MemberEnd, IndividualEnd)), Some(Substring(tok, 0, MemberEnd)));
    assert Substring(tok, 0, MemberEnd) == tok[..MemberEnd] == member;
    assert Substring(tok, MemberEnd, IndividualEnd) == tok[MemberEnd..|tok|] == individual;
  }

  /** A well-formed EID `X YYYYYYYbbb…` parses and formats to `YYYYYYY/bbb… (year)`. */
  lemma ParseThenFormat(flock: string, member: string, individual: string, rest: string, year: int)
    requires ' ' !in flock && ' ' !in member && ' ' !in individual
    requires |member| == MemberEnd && |individual| <= IndividualEnd - MemberEnd
    requires rest == [] || rest[0] == ' '
    ensures var p := GetEIDParts(flock + " " + member + individual + rest);
      && p == EidParts(Some(individual), Some(member))
      && FormatAnimaliaId(p.medlemsnr, p.individnr, Year(year)) == member + "/" + individual + " (" + IntToString(year) + ")"
  {
    var body := member + individual;
    var eid := flock + " " + member + individual + rest;
    assert eid == flock + " " + body + rest;
    SecondTokenOf(flock, body, rest);
    PartsOfToken(eid, member, individual);
  }

  // ---------------------------------------------------------------------
  // Livestock lookup
  // ---------------------------------------------------------------------

  /** What a livestock record is looked up by: the translator compares the
      two birth-id fields with the parsed EID parts, the router's enrichment
      compares the ear tag with the individual number. Absent compares equal
      to absent, as `undefined === undefined` does. */
  datatype SheepKey =
    | ByBirthIds(individnr: Option<string>, medlemsnr: Option<string>)
    | ByEarTag(oremerke: Option<string>)

  predicate Matches(key: SheepKey, sheep: Sheep) {
    match key
    case ByBirthIds(i, m) => sheep.fodselindividnr == i && sheep.fodselmedlemsnr == m
    case ByEarTag(t) => sheep.oremerke == t
  }

  /** `livestock.find(...)` as an index: the first record that matches. */
  function FirstMatch(stock: seq<Sheep>, key: SheepKey): (r: Option<nat>)
    ensures r.Some? ==> r.value < |stock| && Matches(key, stock[r.value])
    ensures r.Some? ==> forall j :: 0 <= j < r.value ==> !Matches(key, stock[j])
    ensures r.None? <==> forall j :: 0 <= j < |stock| ==> !Matches(key, stock[j])
  {
    if stock == [] then None
    else if Matches(key, stock[0]) then Some(0)
    else
      match FirstMatch(stock[1..], key)
      case None => None
      case Some(k) => Some(k + 1)
  }

  /** `find(...)?.fodselaar ?? ""`: a year, when one is found, is the
      `fodselaar` of a record that matches the key. */
  function BirthYearOf(stock: seq<Sheep>, key: SheepKey): (r: BirthYear)
    ensures r.Year? ==> exists k :: 0 <= k < |stock| && Matches(key, stock[k]) && stock[k].fodselaar == Some(r.year)
  {
    match FirstMatch(stock, key)
    case None => Unresolved
    case Some(k) => YearOf(stock[k].fodselaar)
  }

  /** The year comes from the first matching record; later matches are ignored. */
  lemma BirthYearOfFirst(stock: seq<Sheep>, key: SheepKey, k: nat)
    requires k < |stock| && Matches(key, stock[k])
    requires forall j :: 0 <= j < k ==> !Matches(key, stock[j])
    ensures BirthYearOf(stock, key) == YearOf(stock[k].fodselaar)
  {
  }

  /** No matching record: the year is the empty string. */
  lemma BirthYearOfNone(stock: seq<Sheep>, key: SheepKey)
    requires forall j :: 0 <= j < |stock| ==> !Matches(key, stock[j])
    ensures BirthYearOf(stock, key) == Unresolved
  {
  }

  // ---------------------------------------------------------------------
  // Translator
  // ---------------------------------------------------------------------

  /** One element of the translator's output. */
  datatype AnimaliaId = AnimaliaId(
    sheepnumber: Option<string>,
    membernumber: Option<string>,
    birthYear: BirthYear,
    animaliaID: string)

  /** The key the translator looks an EID up by. */
  function BirthKey(eid: string): SheepKey {
    var p := GetEIDParts(eid);
    ByBirthIds(p.individnr, p.medlemsnr)
  }

  /** The translation of one EID against a livestock snapshot: the parsed
      parts (absent exactly when the EID has no space), the year of a record
      carrying those same birth ids, and the id laid out from the three. */
  function ResolveId(eid: string, stock: seq<Sheep>): (r: AnimaliaId)
    ensures r.sheepnumber.None? <==> ' ' !in eid
    ensures r.membernumber.None? <==> ' ' !in eid
    ensures r.birthYear == BirthYearOf(stock, ByBirthIds(r.sheepnumber, r.membernumber))
    ensures r.animaliaID == FormatAnimaliaId(r.membernumber, r.sheepnumber, r.birthYear)
  {
    var p := GetEIDParts(eid);
    var year := BirthYearOf(stock, BirthKey(eid));
    AnimaliaId(p.individnr, p.medlemsnr, year, FormatAnimaliaId(p.medlemsnr, p.individnr, year))
  }

  /** `translateToAnimaliaIds`: a failed livestock fetch is returned as it is
      and nothing is resolved; otherwise every EID is resolved, in order,
      against the same snapshot. */
  function TranslateToAnimaliaIds(eids: seq<string>, livestock: Fetch<seq<Sheep>>): (r: Result<seq<AnimaliaId>, FetchError>)
    ensures livestock.Err? ==> r == Err(livestock.error)
    ensures livestock.Ok? ==> r.Ok? && |r.value| == |eids|
    ensures livestock.Ok? ==> forall i :: 0 <= i < |eids| ==> r.value[i] == ResolveId(eids[i], livestock.value)
  {
    match livestock
    case Err(e) => Err(e)
    case Ok(stock) => Ok(seq(|eids|, i requires 0 <= i < |eids| => ResolveId(eids[i], stock)))
  }

  /** Each entry carries the parsed parts and the id in the registry's layout. */
  lemma TranslateEntry(eids: seq<string>, stock: seq<Sheep>, i: nat)
    requires i < |eids|
    ensures var e := TranslateToAnimaliaIds(eids, Ok(stock)).value[i];
      && e.sheepnumber == GetEIDParts(eids[i]).individnr
      && e.membernumber == GetEIDParts(eids[i]).medlemsnr
      && e.animaliaID == RenderOptional(e.membernumber) + "/" + RenderOptional(e.sheepnumber) + " (" + RenderBirthYear(e.birthYear) + ")"
  {
  }

  /** The birth year of entry i is that of the first record whose two birth
      ids equal the parts parsed from EID i. */
  lemma TranslateFirstMatch(eids: seq<string>, stock: seq<Sheep>, i: nat, k: nat)
    requires i < |eids| && k < |stock|
    requires var p := GetEIDParts(eids[i]);
      stock[k].fodselindividnr == p.individnr && stock[k].fodselmedlemsnr == p.medlemsnr
    requires forall j :: 0 <= j < k ==> !Matches(BirthKey(eids[i]), stock[j])
    ensures TranslateToAnimaliaIds(eids, Ok(stock)).value[i].birthYear == YearOf(stock[k].fodselaar)
  {
    BirthYearOfFirst(stock, BirthKey(eids[i]), k);
  }

  /** A snapshot that matches none of the EIDs still translates successfully,
      with every birth year empty. */
  lemma TranslateNoMatch(eids: seq<string>, stock: seq<Sheep>)
    requires forall i, j :: 0 <= i < |eids| && 0 <= j < |stock| ==> !Matches(BirthKey(eids[i]), stock[j])
    ensures TranslateToAnimaliaIds(eids, Ok(stock)).Ok?
    ensures forall i :: 0 <= i < |eids| ==> TranslateToAnimaliaIds(eids, Ok(stock)).value[i].birthYear == Unresolved
  {
    forall i | 0 <= i < |eids|
      ensures TranslateToAnimaliaIds(eids, Ok(stock)).value[i].birthYear == Unresolved
    {
      BirthYearOfNone(stock, BirthKey(eids[i]));
    }
  }

  /** An EID without a space parses to two absent parts; it matches the first
      record that lacks both birth ids, and its id reads "undefined/undefined (…)". */
  lemma TranslateUnparsable(eids: seq<string>, stock: seq<Sheep>, i: nat)
    requires i < |eids| && ' ' !in eids[i]
    ensures var e := TranslateToAnimaliaIds(eids, Ok(stock)).value[i];
      && e.sheepnumber == None && e.membernumber == None
      && e.birthYear == BirthYearOf(stock, ByBirthIds(None, None))
      && e.animaliaID == "undefined/undefined (" + RenderBirthYear(e.birthYear) + ")"
  {
  }

  /** Translation works EID by EID: translating a batch in two parts gives the
      same entries as translating it at once. */
  lemma TranslateAppend(front: seq<string>, back: seq<string>, stock: seq<Sheep>)
    ensures TranslateToAnimaliaIds(front + back, Ok(stock)).value
         == TranslateToAnimaliaIds(front, Ok(stock)).value + TranslateToAnimaliaIds(back, Ok(stock)).value
  {
    var all := TranslateToAnimaliaIds(front + back, Ok(stock)).value;
    var joined := TranslateToAnimaliaIds(front, Ok(stock)).value + TranslateToAnimaliaIds(back, Ok(stock)).value;
    forall i | 0 <= i < |all| ensures all[i] == joined[i] {
      TranslateAt(front, back, stock, i);
    }
  }

  /** Entry i of the whole batch is entry i of the part holding EID i. */
  lemma TranslateAt(front: seq<string>, back: seq<string>, stock: seq<Sheep>, i: nat)
    requires i < |front| + |back|
    ensures TranslateToAnimaliaIds(front + back, Ok(stock)).value[i]
         == (TranslateToAnimaliaIds(front, Ok(stock)).value + TranslateToAnimaliaIds(back, Ok(stock)).value)[i]
  {
    var eid := (front + back)[i];
    assert TranslateToAnimaliaIds(front + back, Ok(stock)).value[i] == ResolveId(eid, stock);
    if i < |front| {
      assert eid == front[i];
    } else {
      assert eid == back[i - |front|];
    }
  }

  // ---------------------------------------------------------------------
  // Registration request bodies
  // ---------------------------------------------------------------------

  /** The `registreringer` of a fetal-count registration: one wire record per
      entry, in order, with the fields renamed. */
  function FetalBody(regs: seq<FetalEntry>): (body: seq<FetalWire>)
    ensures |body| == |regs|
    ensures forall i :: 0 <= i < |regs| ==>
      body[i].soye == regs[i].ewe && body[i].dato == regs[i].date && body[i].antallFoster == regs[i].fetusCount
  {
    seq(|regs|, i requires 0 <= i < |regs| => FetalWire(regs[i].ewe, regs[i].date, regs[i].fetusCount))
  }

  /** The `registreringer` of a pasture registration: one wire record per
      entry, in order, with the fields renamed. */
  function PastureBody(regs: seq<PastureEntry>): (body: seq<PastureWire>)
    ensures |body| == |regs|
    ensures forall i :: 0 <= i < |regs| ==>
      body[i].individ == regs[i].animalId && body[i].dato == regs[i].date && body[i].beiteBinge == regs[i].pastureId
  {
    seq(|regs|, i requires 0 <= i < |regs| => PastureWire(regs[i].animalId, regs[i].date, regs[i].pastureId))
  }

  /** Reading the entries back out of a fetal-count body. */
  function FetalEntriesOf(body: seq<FetalWire>): seq<FetalEntry> {
    seq(|body|, i requires 0 <= i < |body| => FetalEntry(body[i].soye, body[i].dato, body[i].antallFoster))
  }

  /** Reading the entries back out of a pasture body. */
  function PastureEntriesOf(body: seq<PastureWire>): seq<PastureEntry> {
    seq(|body|, i requires 0 <= i < |body| => PastureEntry(body[i].individ, body[i].dato, body[i].beiteBinge))
  }

  /** The fetal-count body is a pure renaming: the entries can be read back. */
  lemma FetalBodyLossless(regs: seq<FetalEntry>)
    ensures FetalEntriesOf(FetalBody(regs)) == regs
  {
  }

  /** The pasture body is a pure renaming: the entries can be read back. */
  lemma PastureBodyLossless(regs: seq<PastureEntry>)
    ensures PastureEntriesOf(PastureBody(regs)) == regs
  {
  }

  // ---------------------------------------------------------------------
  // The documented example
  // ---------------------------------------------------------------------

  /** The example id in the registry's layout. */
  lemma FormatExample()
    ensures FormatAnimaliaId(Some("1234567"), Some("0000001"), Year(2021)) == "1234567/0000001 (2021)"
  {
    assert IntToString(2021) == "2021";
  }

  /** The translator renders the example ewe `555 12345670000001`, against a
      snapshot holding member 1234567, individual 0000001, born 2021, as
      `1234567/0000001 (2021)`. The literals come in as parameters fixed by
      the precondition so that the verifier reasons about `split` on them
      symbolically instead of unfolding it character by character. */
  lemma TranslateExample(flock: string, member: string, individual: string)
    requires flock == "555" && member == "1234567" && individual == "0000001"
    ensures var eid := flock + " " + member + individual;
      var sheep := Sheep(None, Some(individual), Some(member), Some(2021));
      TranslateToAnimaliaIds([eid], Ok([sheep])).value[0].animaliaID == "1234567/0000001 (2021)"
  {
    var eid := flock + " " + member + individual;
    var sheep := Sheep(None, Some(individual), Some(member), Some(2021));
    assert eid == flock + " " + member + individual + "";
    ParseThenFormat(flock, member, individual, "", 2021);
    TranslateFirstMatch([eid], [sheep], 0, 0);
    var e := TranslateToAnimaliaIds([eid], Ok([sheep])).value[0];
    assert e.animaliaID == FormatAnimaliaId(Some(member), Some(individual), Year(2021));
    FormatExample();
  }
}
