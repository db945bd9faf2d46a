# Animalia identifier translation and registration shaping, in Dafny

This project models the part of the sheep-farming web server that talks to
the Animalia livestock registry. That part does four things:

- **EID codec.** It parses a universal electronic tag (`"<flock> <body>"`)
  into a member number (characters 0–7 of the body) and an individual
  number (characters 7–20).
- **Formatting.** It formats the registry's compact id
  `medlemsnr/individnr (birthYear)`.
- **Translation.** It translates a batch of EIDs into compact ids against
  one livestock snapshot.
- **Router shaping.** It builds the request bodies for pasture and
  fetal-count registrations, enriches each registration with a birth year,
  pages the livestock listing, and maps the registry's `individ` strings
  back to individual numbers.

All of this code is pure, so the model is datatypes, functions and lemmas.
The HTTP fetches are not modelled. A fetch result is an input value of type
`Result<T, FetchError>`.

The two registration handlers are functions of the two results they fetch.
Each returns a `Run`, which records:

- the remote calls the handler makes, in order (`FetchLivestock`,
  `Submit(body)`);
- what the handler answers.

Recording the calls lets the model state "nothing is submitted when the
livestock fetch fails" and "a negative count is rejected before any call".

JavaScript semantics are written out in module `JsText`:

- `split` with a one-character separator, and indexing past the end of the
  result, which gives `undefined` (modelled as `None`);
- `substring`, which clamps and swaps its bounds;
- `slice`, which counts negative indices from the end;
- template-literal rendering, where `undefined` renders as `"undefined"`
  and an integer renders as its decimal digits;
- optional chaining and `===` on possibly-absent fields, which become
  equality on `Option`. So `undefined === undefined` holds.

A string is a sequence of Unicode scalar values, whereas JavaScript counts
UTF-16 code units. The two agree on the digit strings an EID is made of (see
"## Left out").

Modules:

- `Wrappers`: the `Option` and `Result` types.
- `JsText`: the JavaScript primitives listed above.
- `AnimaliaCtx` (src/server/api/animalia/animalia-ctx.ts): the data shapes,
  the codec, the livestock lookup, the translator and the wire bodies.
- `AnimaliaRouter` (src/server/api/routers/animalia.ts): the listing,
  enrichment, handlers and `individ` re-mapping.

## Behaviour worth knowing

The model follows the code as written. The points below are easy to
misread. The first goes against the code's own context: the router goes to
the trouble of adding a `birthYear` to every registration
(src/server/api/routers/animalia.ts:124-131 and 179-189), and the
translator's doc comment describes the compact id it builds
(src/server/api/animalia/animalia-ctx.ts:204-206).

- **The registry id is never sent.** The router adds `birthYear` to each
  registration. The registration call then copies only `ewe`/`date`/`fetusCount`
  (or `animalId`/`date`/`pastureId`) into the wire record, so the birth year
  is dropped. `soye` and `individ` on the wire are therefore the caller's raw
  EID. They are not `medlemsnr/individnr (year)`. See `EnrichmentDropped`,
  `RegisterFetalCount` and `FetalCountExample`.
- **The router does not call the translator.** Its enrichment compares a
  sheep's `oremerke` with characters 7–20 of the EID's second token
  (`EarTagKeyIsIndividnr`). The translator instead compares `fodselindividnr`
  and `fodselmedlemsnr` with both parsed parts.
- **A second "/" also ends the re-mapped `individ`.** The re-mapping is
  `split("/")[1]?.split(" ")[0]`, so its result stops at the next "/" as well
  as at the next space. For example, `"a/b/c d"` gives `"b"`.
- **Only fetal-count responses are re-mapped.** The pasture handler returns
  the registry's response unchanged, or `[]` when the registration call
  failed. It never reports that failure.
- **`limit` is an end index, not a page size.** The listing returns
  `data.slice(offset, limit)`, so it holds the records from `offset` up to
  (not including) `limit`. With the default limit of 10, any offset of 10 or
  more gives an empty page (`LivestockPage`).
- **An EID with no space matches blank records.** It parses to two absent
  parts. Absent equals absent, so the EID matches the first sheep whose
  `fodselindividnr` and `fodselmedlemsnr` are both absent. Its id reads
  `undefined/undefined (…)` (`TranslateUnparsable`).

## Model

| member | source | states |
|---|---|---|
| `JsText.Split` | src/server/api/animalia/animalia-ctx.ts:81 | `split(" ")` always yields at least one piece, and no piece contains the separator |
| `JsText.SplitJoin` | src/server/api/animalia/animalia-ctx.ts:81 | splitting loses nothing: joining the pieces with the separator gives the string back |
| `JsText.SplitHead` | src/server/api/animalia/animalia-ctx.ts:81-85 | piece 0 is the text before the first separator; a piece 1 exists iff the separator occurs; the later pieces are the split of the text after it |
| `JsText.SecondPiece` | src/server/api/animalia/animalia-ctx.ts:81-82 | `parts[1]` is defined iff the separator occurs, and is then the text between the first and second separator (or the end) |
| `JsText.Substring` | src/server/api/animalia/animalia-ctx.ts:82-85 | for 0 <= start <= end, `substring` is the characters [min(start,len), min(end,len)), so at most end - start of them |
| `JsText.Slice` | src/server/api/routers/animalia.ts:73 | `slice(start, end)` has length max(hi - lo, 0) for the relative indices lo, hi, and element k is element lo + k of the input |
| `JsText.NatToString` | src/server/api/animalia/animalia-ctx.ts:238 | a number renders as a non-empty string of decimal digits, without a leading zero |
| `JsText.NatToStringValue` | src/server/api/animalia/animalia-ctx.ts:238 | reading the rendered digits back gives the number |
| `JsText.IntToString` | src/server/api/animalia/animalia-ctx.ts:238 | a rendered year holds no space, "/" or ")", so it cannot disturb the id's layout |
| `AnimaliaCtx.SecondToken` | src/server/api/animalia/animalia-ctx.ts:81-82 | `split(" ")[1]` is undefined exactly when the EID has no space, and is otherwise the text between the first and the second space (or the end) |
| `AnimaliaCtx.GetEIDParts` | src/server/api/animalia/animalia-ctx.ts:80-87 | both parts are undefined iff the EID has no space; otherwise `medlemsnr` is characters [0,7) and `individnr` characters [7,20) of the second token, clamped, so at most 7 and 13 characters |
| `AnimaliaCtx.EidPartsCover` | src/server/api/animalia/animalia-ctx.ts:80-87 | member part followed by individual part is exactly the token's first 20 characters: no character is lost or repeated between them |
| `AnimaliaCtx.ParseThenFormat` | src/server/api/animalia/animalia-ctx.ts:80-87 | an EID `X YYYYYYYbbb…` (body of 7 + up to 13 characters) parses to (`bbb…`, `YYYYYYY`) and formats as `YYYYYYY/bbb… (year)` |
| `AnimaliaCtx.FormatMemberFirst` | src/server/api/animalia/animalia-ctx.ts:238 | `FormatAnimaliaId`, the template `${medlemsnr}/${individnr} (${birthYear})` with `undefined` rendered as "undefined" (`RenderOptional`): the member number is read back as the text before the id's first "/", when it holds no "/"; `ParseThenFormat`, `ExtractFormatted` and `FormatExample` state the rest of its layout |
| `AnimaliaCtx.RenderBirthYear` | src/server/api/animalia/animalia-ctx.ts:232 | the birth year renders empty iff no year was found, and never contains a space or "/" |
| `AnimaliaCtx.FirstMatch` | src/server/api/animalia/animalia-ctx.ts:227-231 | `find` returns a matching record with no match before it, and nothing iff no record matches |
| `AnimaliaCtx.BirthYearOf` | src/server/api/animalia/animalia-ctx.ts:226-232 | `find(...)?.fodselaar ?? ""`: a year, when one is found, is the `fodselaar` of a record that matches the key |
| `AnimaliaCtx.BirthYearOfFirst` | src/server/api/animalia/animalia-ctx.ts:226-232 | the year is the `fodselaar` of the first matching record; later matches are ignored |
| `AnimaliaCtx.BirthYearOfNone` | src/server/api/animalia/animalia-ctx.ts:232 | with no matching record the year is the empty string |
| `AnimaliaCtx.ResolveId` | src/server/api/animalia/animalia-ctx.ts:224-240 | the `map` callback for one EID: both parts are absent exactly when the EID has no space; the year is the one looked up by the entry's own `sheepnumber`/`membernumber`; the id is laid out from the entry's parts and year |
| `AnimaliaCtx.TranslateToAnimaliaIds` | src/server/api/animalia/animalia-ctx.ts:210-243 | a livestock error is returned as `err` with exactly that error; otherwise the result is `ok` with one entry per EID, entry i computed from EID i alone against the same snapshot |
| `AnimaliaCtx.TranslateEntry` | src/server/api/animalia/animalia-ctx.ts:234-238 | entry i has `sheepnumber = individnr`, `membernumber = medlemsnr` and `animaliaID = medlemsnr/individnr (birthYear)` |
| `AnimaliaCtx.TranslateFirstMatch` | src/server/api/animalia/animalia-ctx.ts:226-232 | entry i's year is the `fodselaar` of the first record whose `fodselindividnr` and `fodselmedlemsnr` equal EID i's parts |
| `AnimaliaCtx.TranslateNoMatch` | src/server/api/animalia/animalia-ctx.ts:232-242 | a snapshot matching no EID still yields `ok`, with every year empty |
| `AnimaliaCtx.TranslateUnparsable` | src/server/api/animalia/animalia-ctx.ts:225-238 | an EID without a space has two absent parts, matches the first record lacking both birth ids, and reads `undefined/undefined (…)` |
| `AnimaliaCtx.TranslateAppend` | src/server/api/animalia/animalia-ctx.ts:224-240 | translating a batch in two parts gives the same entries as translating it at once |
| `AnimaliaCtx.FetalBody` | src/server/api/animalia/animalia-ctx.ts:125-129 | one wire record per registration, in order, with `soye`/`dato`/`antallFoster` taken from `ewe`/`date`/`fetusCount` |
| `AnimaliaCtx.PastureBody` | src/server/api/animalia/animalia-ctx.ts:184-188 | one wire record per registration, in order, with `individ`/`dato`/`beiteBinge` taken from `animalId`/`date`/`pastureId` |
| `AnimaliaCtx.FetalBodyLossless` | src/server/api/animalia/animalia-ctx.ts:125-129 | the fetal body is a pure renaming: the registrations read back from it are the originals |
| `AnimaliaCtx.PastureBodyLossless` | src/server/api/animalia/animalia-ctx.ts:184-188 | the pasture body is a pure renaming: the registrations read back from it are the originals |
| `AnimaliaRouter.Livestock` | src/server/api/routers/animalia.ts:41-57 | no account gives FORBIDDEN; a failed fetch is thrown with its error and returns no animals; otherwise a page no longer than the data |
| `AnimaliaRouter.LivestockPage` | src/server/api/routers/animalia.ts:73 | with offset, limit >= 0 the page is the records at offset <= i < min(limit, length), in order, and empty when limit <= offset |
| `AnimaliaRouter.SliceForward` | src/server/api/routers/animalia.ts:73 | `slice` with non-negative bounds picks exactly the indices offset <= i < min(limit, length) |
| `AnimaliaRouter.LivestockDefaultPage` | src/server/api/routers/animalia.ts:21-22 | with limit and offset left out (defaults 10 and 0) the page is the first min(10, length) records |
| `AnimaliaRouter.EarTagKey` | src/server/api/routers/animalia.ts:129 | `animalId.split(" ")[1]?.substring(7, 20)` (and `ewe…` at line 186) is undefined exactly when the EID has no space, and is otherwise at most 13 characters |
| `AnimaliaRouter.EarTagKeyIsIndividnr` | src/server/api/routers/animalia.ts:129 | the enrichment's key, characters [7,20) of the second token, is the translator's `individnr` |
| `AnimaliaRouter.EnrichPastures` | src/server/api/routers/animalia.ts:124-131 | one record per registration, in order, every original field kept, `birthYear` from the first sheep whose `oremerke` equals the key |
| `AnimaliaRouter.EnrichFetals` | src/server/api/routers/animalia.ts:179-189 | the same for fetal counts, keyed on `ewe` |
| `AnimaliaRouter.EnrichPastureYear` | src/server/api/routers/animalia.ts:126-130 | pasture registration i gets the `fodselaar` of the first sheep whose ear tag equals its key, and `""` when there is none |
| `AnimaliaRouter.EnrichFetalYear` | src/server/api/routers/animalia.ts:183-187 | fetal registration i gets the `fodselaar` of the first sheep whose ear tag equals its key, and `""` when there is none |
| `AnimaliaRouter.EnrichmentDropped` | src/server/api/routers/animalia.ts:124-137 | the enriched batch produces the same wire body as the raw batch: the added birth year never reaches the registry |
| `AnimaliaRouter.ExtractIndivid` | src/server/api/routers/animalia.ts:209 | `""` when there is no "/"; otherwise the text after the first "/" up to the next "/" or space; never contains either |
| `AnimaliaRouter.ExtractFormatted` | src/server/api/routers/animalia.ts:209 | round trip: re-mapping `medlemsnr/individnr (year)` plus any suffix gives `individnr`, when `medlemsnr` has no "/" and `individnr` no "/" or space |
| `AnimaliaRouter.ExtractAfterTranslate` | src/server/api/routers/animalia.ts:209 | for an EID with a space and no "/", re-mapping the translator's id gives back its `sheepnumber` |
| `AnimaliaRouter.RemapOutcomes` | src/server/api/routers/animalia.ts:206-211 | same length and order, `errors` kept, each `individ` re-mapped |
| `AnimaliaRouter.RemapExample` | src/server/api/routers/animalia.ts:206-211 | `1234567/0000001 (2021) extra` with no errors maps to `0000001` with no errors |
| `AnimaliaRouter.RegisterPasture` | src/server/api/routers/animalia.ts:104-139 | a livestock error aborts with INTERNAL_SERVER_ERROR and its message after only the fetch; otherwise one submission of the raw-renamed body, answering the registry's data or `[]` when that call failed |
| `AnimaliaRouter.RegisterFetalCount` | src/server/api/routers/animalia.ts:157-215 | a negative count is rejected before any call; a livestock error aborts with INTERNAL_SERVER_ERROR before submission; a registration error gives BAD_REQUEST; success gives the re-mapped response |
| `AnimaliaRouter.NegativeCountRejectsBatch` | src/server/api/animalia/animalia-ctx.ts:74-78 | `fetusCount: z.number().min(0)` (`ValidFetalEntry`), checked by the input schema: one negative count rejects the whole batch with BAD_REQUEST before any remote call, whatever the fetches would return |
| `AnimaliaRouter.SubmitOnlyAfterLivestock` | src/server/api/routers/animalia.ts:118-122 | no partial submission: a handler submits only after a successful livestock fetch (and valid counts), and the one body holds every registration |
| `AnimaliaCtx.FormatExample` | src/server/api/animalia/animalia-ctx.ts:238 | member 1234567, individual 0000001, year 2021 format as `1234567/0000001 (2021)` |
| `AnimaliaCtx.TranslateExample` | src/server/api/animalia/animalia-ctx.ts:224-242 | the EID `555 12345670000001` against a record with those birth ids and year 2021 translates to `1234567/0000001 (2021)` |
| `AnimaliaRouter.FetalCountExample` | src/server/api/routers/animalia.ts:179-195 | the same ewe, counted 2 on 2024-03-01, is submitted as `{soye: "555 12345670000001", dato: "2024-03-01", antallFoster: 2}` |

## Left out

- HTTP calls (`betterFetch`), URLs, headers, the access token, the producer number and the async sequencing are not modelled. Each fetch result is a parameter, and a `Run` records which calls are made.
- `getPastures` is not modelled. It is a bare fetch with no logic.
- The `fromBirthYear` filter is not modelled. It is only passed on to the livestock fetch.
- Schema parsing is modelled only through the `fetusCount >= 0` bound (`ValidFetalEntry`), which the input schema checks before the handler runs. Output-schema checks are left out.
- `SheepSchema` is reduced to the four fields the code reads. The other fields are never inspected.
- Numbers (`fodselaar`, `fetusCount`, `limit`, `offset`) are modelled as integers. Fractional values are not modelled. Neither is JavaScript's exponent rendering of numbers of 1e21 and above.
- A successful fetch whose JSON body is `null` is not modelled. Such a body makes `livestock?.find` yield `undefined` and makes `data.slice` throw. A successful fetch here always carries a list.
- The account lookup is modelled only as the listing's `hasAccount` flag. The registration handlers do not check the account. They fall back to an empty token, which only the registry reacts to.
- The error message texts built with `JSON.stringify` are not modelled. The listing's and the fetal-count handler's errors carry the fetch error itself.
- The `status` route (a constant `"ok"`) and the `console.log` calls are not modelled. The route has no logic and the logging has no effect on results.
- Strings are sequences of Unicode scalar values, not of UTF-16 code units. `split`, `substring` and `slice` index by code unit in JavaScript, so an EID holding a character outside the Basic Multilingual Plane would be cut at a different place than in the model. EIDs are digit strings, where the two agree.
- Livestock: for a negative offset or limit its contract gives only the success and the length bound. The exact page then follows from `JsText.Slice`'s relative-index contract. No separate lemma covers it.
