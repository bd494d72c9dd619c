# Blueballs: verified models

Dafny models of the parts of Blueballs where a mistake would be expensive or hard to see, with proofs
of what those parts are for. Everything is a proof about a model; nothing of the original program was
executed. `dafny verify dfyconfig.toml` checks the whole project.

## What is modelled

**Contracts at the API boundary.** `Schemas`, `Guard`, `Validator`, `Meaning`, `Locality`,
`ErrorSites` and `PublicShape` model the JSON Schema checker and the removal of the internal `owner`
field. The checker is a set of mutually recursive methods with the loops of the source, proved equal
to a recursive specification `Errors`; about `Errors` it is proved that

- it reports nothing exactly for the values a schema accepts, acceptance being stated with
  quantifiers, and throws exactly when a reference it needs does not resolve;
- it needs only that references at one value are acyclic (the guard of section 9.4.1 of JSON Schema
  Core 2020-12): schemas may recurse freely through items and properties;
- its errors are exactly the rules broken at the places validation descends to, and their paths lead
  to existing values (or to a required key missing from an existing object).

`Text`, `Decimal`, `Numbers`, `Json`, `JsonParse` and `JsonGrammar` hold the values underneath: strings
are UTF-16 code units, numbers are shortest decimals, objects keep member order, and serialisation has the shape
of JSON.stringify (ECMA-262, section 25.5.2), including Number::toString and the escaping of unpaired
surrogates. It is proved injective, which is what the `uniqueItems` test by a set of strings relies on.
The parser of JSON.parse (section 25.5.1) reads a printed value back exactly when its objects are ones
JavaScript can hold - keys distinct, array indices first - and yields no other value. It accepts exactly
the texts of the grammar of RFC 8259, stated independently, and gives each the value it spells.

**The FX demo market.** `Allocator` is the greedy fill loop over reals; `BestExecution` proves
conservation, when a fill is complete, how far the cent-rounded output is from the exact one, and
best execution by a duality argument. Best execution is false in general: a source too small to be
used may quote the best rate. It holds for a request exactly when no such source quotes better than a
source the request reaches, and so for every request to the shipped market under any scenario. What a
plan pays is, leg by leg, the only whole number of cents within half a cent, halves up.

**Exact money.** `ExactMoney` and `MoneyLaws`: conversion chains never create value, splitting an
order loses only roundings, the two spread engines agree exactly for spreads of 0 to 10000 bps, and
the printed decimals are the one canonical numeral of the nearest value, halves up (a rate printed with
no decimals is not a numeral, so that property holds exactly from one decimal up).

**The paid-model protocol.** `Quota`, `BuilderAgent`, `BuilderProtocol`, `BudgetCeiling`,
`TenantCeiling` and `TenantOverlap`: the agent and the budget as objects that serve one whole request,
and a state machine of any number of tenant agents and one global budget in which every pause of a
request is a step boundary. In every interleaving the paid calls of a day stay within the global limit
if the day's stamps reach the budget as one block, as they do under clocks that never run back, or are
no more than the limit; configured limits being positive, any other order of stamps lets some run exceed
it. A tenant's daily limit can be lost when requests of one agent overlap so that an answer writes back a quota that is no longer the
stored one. With the tenant's clock in order, the limit holds at every point of a run and whatever is
admitted next if and only if no answer so far was stale in that sense; an agent that serves one request
at a time never gives a stale answer.

**Key recovery.** `SingleFlight` and `KeyRecovery`: the cached promise with scheduling, settlement and
`finally` as separate steps, and on top of it any number of API calls that meet a 401. A 401 discards
whatever key is stored, so a late one can discard a key that was never rejected. If rejected keys are
never stored again, a run whose 401s are all prompt signs up at most once more than keys were rejected
or cleared and sign-ups failed. A 401 that discards a key can go on to cost a sign-up beyond that if
and only if it teaches nothing new and finds no sign-up in flight.

**Shared blueprints.** `Blueprint`, `UriCoding`, `ShareLink` and `LinkLength`: the sanitiser, which
two passes always settle and one pass exactly when the text it cuts shows no space at its edges;
percent-encoding of UTF-8 with its strict decoder; the round trip of a link through both and through
the JSON printer and parser; and the exact length of a link, which decides whether it decodes.

**Provider matching.** `Matching`, `Sorting` and `Ranking`: weights, scores and the ranked list.

## Readings of the source

- `anyOf`, `oneOf` and `allOf` are looked at in that order, and the first present one hides all
  sibling keywords.
- A reference is followed one level: a reference inside its target is ignored, and so are the sibling
  keywords of a followed reference.
- `===` between a checked value and a schema's own array or object is never true, since they are
  different objects; `const` and `enum` therefore accept no array or object. The header comment of
  the checker says every emitted keyword is handled; the standard's `const` and `enum` are met for
  scalars only. The equality of the standard does not depend on the order of members.
- Keys are names not inherited from `Object.prototype`. Every falsy schema is `Missing`; the boolean
  schema `true` is the schema without keywords.
- Integers of the money engines are non-negative amounts; BigInt division truncates, which matters
  only for the negative factor of a spread above 10000 bps and is modelled there.
- A day stamp is an integer: ISO dates of the years 0 to 9999 order as days do.
- A Durable Object serves one storage-backed call at a time, so `reserve` is one step.
- A key that is the empty string is no key, except that `ensureKey` hands it out.
- A key is rejected when a call's own request, sent with it, is answered 401. The answer to a retry is
  returned whatever it is.
- Name collation is a parameter giving each name a key; region names enter normalised, and a
  provider carries the set of rails its product text mentions.

## Model

| member | source | states |
|---|---|---|
| Validator.SchemaErrors | apps/api/src/json-schema-lite.js:46-169 | the checker returns what the specification `Errors` says, exceptions included, and terminates for every guarded registry |
| Validator.CheckBody | apps/api/src/json-schema-lite.js:50-94 | applicators in order of precedence, then the constant, enumeration and type gate, give the specified errors |
| Validator.CheckContent | apps/api/src/json-schema-lite.js:96-168 | pushing string, number, list, item and member errors in order gives the specified list |
| Validator.TryAll | apps/api/src/json-schema-lite.js:51-67 | trying every alternative collects their error lists, or the first exception |
| Validator.CountClean | apps/api/src/json-schema-lite.js:62 | the number of alternatives without errors |
| Validator.CheckItems | apps/api/src/json-schema-lite.js:134-138 | item errors are appended under their index, or the first exception is raised |
| Validator.CheckRequired | apps/api/src/json-schema-lite.js:143-146 | one error for each required name that is missing |
| Validator.CheckMembers | apps/api/src/json-schema-lite.js:147-165 | member errors are appended under their key, or the first exception is raised |
| Validator.CheckMember | apps/api/src/json-schema-lite.js:148-164 | documented, forbidden, governed and unrestricted members are told apart as specified |
| Validator.FirstExceptionWins | apps/api/src/json-schema-lite.js:39-42 | the first check that throws ends a run of checks |
| Guard.GuardedExactlyWhenAcyclic | apps/api/src/json-schema-lite.js:35-69 | the termination measure exists if and only if no chain of references at one value returns to its start |
| Meaning.ErrorsMean | apps/api/src/json-schema-lite.js:46-169 | the checker throws exactly when a reference it needs does not resolve; otherwise it reports nothing exactly for accepted values |
| Meaning.UniqueItemsMeansDistinct | apps/api/src/json-schema-lite.js:132-133 | as many different serialisations as items means that no two items are the same value |
| Meaning.TypesDecide | apps/api/src/json-schema-lite.js:6-14 | a list of types lets through the values that go by one of them - each by one of the six names of JSON, a whole number by integer besides - and reports a mismatch for every other value |
| Meaning.OneTypeAcceptsExactly | apps/api/src/json-schema-lite.js:82-94 | a schema that asks for one type only accepts exactly the values of that type, whole numbers being the integers and an unknown name no value |
| Meaning.WholeExactly | apps/api/src/json-schema-lite.js:11 | the test for integers is the test for whole numbers |
| Meaning.ConstantDecides | apps/api/src/json-schema-lite.js:71-75 | with a constant, validation reports what the other keywords do for the equal scalar, and a mismatch for every other value |
| Meaning.ChoicesDecide | apps/api/src/json-schema-lite.js:76-80 | with an enumeration, validation reports what the other keywords do for a listed scalar, and a mismatch for every other value |
| Meaning.ConstantsFollowTheStandardExactlyForScalars | apps/api/src/json-schema-lite.js:71-75 | a constant accepts exactly the values equal to it, in the standard's sense, that the other keywords accept, if and only if it is a scalar or they refuse all those values |
| Meaning.ChoicesFollowTheStandardExactlyForScalars | apps/api/src/json-schema-lite.js:76-80 | an enumeration accepts exactly the values equal to a listed one, in the standard's sense, that the other keywords accept, if and only if they refuse every array or object among those |
| Meaning.OneLevelOfReference | apps/api/src/json-schema-lite.js:35-47 | a schema with a reference is checked without its sibling keywords, as the target without the target's own reference |
| Meaning.OneLevelIsTheEndExactly | apps/api/src/json-schema-lite.js:35-44 | one level agrees with following references to the end if and only if the target refers no further |
| Meaning.OneLevelIsAlwaysTheEndExactly | apps/api/src/json-schema-lite.js:35-44 | it does for every schema if and only if no registered schema carries a reference |
| Meaning.ReferencesResolveExactly | apps/api/src/json-schema-lite.js:35-44 | a reference of the one supported form is looked up under its name, an unknown name and any other form throw, each in its own way |
| Meaning.ChainedReferencesCheckNothing | apps/api/src/json-schema-lite.js:35-44 | a reference to a schema that is only a reference accepts every value, even if the second target is unknown |
| Json.StringifyIsInjective | apps/api/src/json-schema-lite.js:132 | values that serialise alike are the same value, member order included |
| Json.EscapesExactly | apps/api/src/json-schema-lite.js:132 | which code points are printed as they are, by a short escape, and by four lower-case hex digits |
| JsonParse.ParseReadsBackExactly | src/blueprint/share.ts:87-89 | parsing what was printed gives the value back if and only if its objects have distinct keys, array indices first |
| JsonParse.ValuesAreWellKeyed | src/blueprint/share.ts:87-89 | parsing yields only such values |
| JsonGrammar.ParseIsTheGrammar | src/blueprint/share.ts:87-89 | parsing succeeds exactly on the texts of the JSON grammar, white space, escapes and repeated keys included, and gives the value they spell |
| Numbers.ShortestKeepsValue | src/blueprint/share.ts:87-89 | the number a numeral names has exactly its value |
| Numbers.ZerosMultiply | apps/api/src/json-schema-lite.js:111-124 | a positive whole number is worth its digits followed by zeros |
| Numbers.PlacesDivide | apps/api/src/json-schema-lite.js:111-124 | any other positive number is worth its digits divided by a power of ten |
| Numbers.SignMirrorsValue | apps/api/src/json-schema-lite.js:111-124 | a negative number is worth the negative of its digits' worth |
| JsonParse.ArrayIndicesExactly | src/blueprint/share.ts:87-89 | the keys put first are the canonical numerals below 2^32 - 1 |
| Numbers.NumberTextIsInjective | apps/api/src/json-schema-lite.js:132 | different numbers print differently |
| Numbers.LayoutDenotes | apps/api/src/json-schema-lite.js:132 | a printed number's digits and power denote exactly the number |
| Locality.ErrorsMoveWithThePath | apps/api/src/json-schema-lite.js:46-169 | validating at a path gives the root errors with the path put in front |
| ErrorSites.ErrorsAreExactlyTheBrokenRules | apps/api/src/json-schema-lite.js:46-169 | an error is reported if and only if some place validation descends to breaks the rule it names, where it names it |
| ErrorSites.SitesExist | apps/api/src/json-schema-lite.js:134-166 | in a value whose objects repeat no key, the path of a place validation descends to leads to its value |
| ErrorSites.ErrorPathsLead | apps/api/src/json-schema-lite.js:99-166 | in a value whose objects repeat no key, every error path leads to an existing value, or to a required key missing from an existing object |
| PublicShape.PublishRemovesTheOwnerOnce | apps/api/src/public-shape.js:5-13 | publishing changes a value exactly when the internal key occurs in it at some depth, and is idempotent |
| PublicShape.PublishedIsOwnerless | apps/api/src/public-shape.js:3-13 | no internal key is left at any depth |
| PublicShape.PublishKeepsEverythingElse | apps/api/src/public-shape.js:5-13 | every path that avoids the internal key leads to the published subvalue, every other path to nothing |
| PublicShape.AcceptedValuesAreAlreadyPublic | apps/api/src/json-schema-lite.js:134-166 | a value accepted by a schema whose reachable objects are closed and never document the internal key is left unchanged by publishing, whatever else is registered |
| Allocator.AvailableIsSorted | src/fx/demoRuntime.ts:212-214 | the sources on offer are the usable ones, each as often as listed, cheapest first |
| Allocator.Allocate | src/fx/demoRuntime.ts:208-244 | the fill loop with its break and continue computes the specified plan |
| Allocator.NothingMore | src/fx/demoRuntime.ts:216-218 | once at most 0.005 BRL is left no later source contributes |
| BestExecution.FillConserves | src/fx/demoRuntime.ts:216-237 | for a non-negative request, leg inputs plus the remainder are the request; every leg is a usable source's, above dust and within its capacity |
| BestExecution.CompleteExactlyWhenLiquid | src/fx/demoRuntime.ts:235-237 | a plan is complete if and only if the sources worth using add up to the request less 0.01 |
| BestExecution.CompleteForNothing | src/fx/demoRuntime.ts:217-236 | exactly which complete plans buy nothing |
| BestExecution.PaidIsClose | src/fx/demoRuntime.ts:119-120 | the cent-rounded output is within half a cent a leg of the exact one |
| BestExecution.CentsExactly | src/fx/demoRuntime.ts:119 | an amount to the cent is the only whole number of cents within half a cent, the upper one of two |
| BestExecution.PaysWholeCents | src/fx/demoRuntime.ts:230-241 | what a plan pays is the sum of its legs' outputs, each rounded to that number of cents |
| BestExecution.CapacityByScenario | src/fx/demoRuntime.ts:148-200 | what each scenario leaves of the shipped market's capacity |
| BestExecution.BestExecution | src/fx/demoRuntime.ts:208-244 | with sources all worth more than dust, no feasible split of the same input buys more than the plan |
| BestExecution.UsesExactlyWhatItReaches | src/fx/demoRuntime.ts:216-233 | a source is used if and only if it is worth more than dust and the request exceeds by more than dust what earlier sources hold |
| BestExecution.BestExecutionExactly | src/fx/demoRuntime.ts:208-244 | best execution of a request if and only if no source too small to be used quotes better than a source the request reaches |
| BestExecution.BestExecutionExactlyWithoutDustBargains | src/fx/demoRuntime.ts:212-233 | best execution for every request if and only if no source too small to be used quotes better than one worth using |
| BestExecution.ShippedMarketHasNoDust | src/fx/demoRuntime.ts:37-86 | every usable source of the shipped table, under every scenario, is worth using |
| BestExecution.ShippedMarketIsAlwaysBest | src/fx/demoRuntime.ts:208-244 | every request to the shipped market, under every scenario, gets best execution |
| MoneyLaws.SpreadUnitsExactly | apps/api/src/fx-exact-math.js:9-19 | a spread is accepted as so many units if and only if it is within the tolerance of them and in range |
| MoneyLaws.ConvertsDownExactly | apps/api/src/fx-exact-math.js:28-37 | a conversion pays the largest whole number of minor units its exact value allows |
| MoneyLaws.ConversionThrowsExactly | apps/api/src/fx-exact-math.js:9-37 | which error a conversion throws, and when: unlisted currency first, then a spread too fine, then one out of range |
| MoneyLaws.PegsConvertOneForOne | apps/api/src/exact-rates.js:14-25 | a stablecoin converts as the fiat currency it is pegged to, and one for one into it |
| MoneyLaws.KeptKeepsValue | apps/api/src/fx-exact-math.js:28-37 | one conversion never raises amount times mid, lowers it when a spread bites, and at mid loses less than one destination unit |
| MoneyLaws.ChainsNeverGain | apps/api/src/fx-exact-math.js:22-37 | along any chain of currencies and spreads the value never rises |
| MoneyLaws.CyclesNeverProfit | apps/api/src/fx-exact-math.js:28-37 | a cycle through a currency with a positive mid returns no more than it started with, strictly less if the start is positive and some spread is |
| MoneyLaws.MidChainsLoseLittle | apps/api/src/fx-exact-math.js:22-25 | a chain at mid loses less than the sum of the destination mids |
| MoneyLaws.ZeroSpreadIsMid | apps/api/src/fx-exact-math.js:22-37 | no spread is the mid conversion, defined exactly for listed pairs |
| MoneyLaws.SplittingLosesOnlyRoundings | apps/api/src/fx-exact-math.js:28-37 | n parts, n at least one, pay at most the whole and at most n-1 minor units less |
| MoneyLaws.EnginesAgreeExactlyInRange | apps/api/src/exact-rates.js:36-40 | the two engines agree if and only if the spread is from 0 to 10000 bps |
| MoneyLaws.BeyondTheWholeMirrors | apps/api/src/exact-rates.js:36-40 | a spread beyond 10000 bps gives the negative of what one as far below gives |
| MoneyLaws.SpreadTakenIsFair | apps/api/src/fx-exact-math.js:9-37 | the spread taken is non-negative, grows with the bps and is within one minor unit of the exact spread |
| MoneyLaws.FixedTextReadsBack | apps/api/src/exact-rates.js:31-32 | the padded and sliced string is the canonical numeral of its value, with no leading zero but the one before the point, if and only if it has decimals |
| MoneyLaws.CanonicalIsUnique | apps/api/src/exact-rates.js:31-32 | canonical numerals with the same decimals and value are the same text |
| MoneyLaws.RateStringReadsBack | apps/api/src/exact-rates.js:27-33 | a rate string is the canonical numeral of the value nearest to the rate, halves up, exactly from one decimal up |
| MoneyLaws.PercentageReadsBack | apps/api/src/fx-exact-math.js:40-49 | the percentage is the canonical two-decimal numeral nearest to the true one, halves up, from 0.00 to 100.00 |
| MoneyLaws.PercentageFallsWithResidual | apps/api/src/fx-exact-math.js:44-48 | a larger residual never shows a larger saving |
| Quota.BuilderBudget.Reserve | workers/site/builder-budget.js:22-27 | the stored quota stays what the stamps asked for make it; a reservation is allowed exactly when that grants it, and reports what the day has left |
| Quota.PositiveInteger | workers/site/neobank-builder.js:11-16 | a positive safe integer is kept up to the maximum, anything else falls back, so a configured limit stays between one and its maximum |
| Quota.ContiguousGrants | workers/site/builder-budget.js:5-16 | a day whose stamps form one block is granted at most the limit |
| Quota.CeilingExactly | workers/site/builder-budget.js:10-15 | for each limit, a day is granted at most the limit if and only if its stamps reach the counter as one block, or are no more than the limit |
| Quota.CeilingExactlyForContiguousStamps | workers/site/builder-budget.js:10-15 | a day is within every limit if and only if its stamps reach the counter as one block |
| Quota.RemainingIsWhatIsLeft | workers/site/builder-budget.js:12-15 | the number of requests a caller is told are left is the limit less the day's grants |
| BuilderAgent.NeobankBuilder.Admit | workers/site/neobank-builder.js:249-261 | the stored quota stays what the days asked for make it; admission is allowed exactly when that grants it, and leaves room for one paid call |
| BuilderAgent.NeobankBuilder.Ask | workers/site/neobank-builder.js:332-335 | the model is shown at most twenty messages: the end of the whole transcript with the new message, which comes last |
| BuilderAgent.NeobankBuilder.Answer | workers/site/neobank-builder.js:301 | the turn joins the transcript, the agent holds its end with the reply last, and the quota is unchanged |
| BuilderAgent.NeobankBuilder.OnRequest | workers/site/neobank-builder.js:244-326 | a whole request: which refusal it meets, what it charges to whom, what it adds to the transcript, failures included |
| BuilderAgent.AgentCeiling | workers/site/neobank-builder.js:244-301 | an agent object serving whole requests never pays for more calls of a day than its limit, the day's requests arriving as one block |
| BuilderProtocol.GlobalCeiling | workers/site/neobank-builder.js:249-300 | in every interleaving of all tenants, the paid calls stamped with a day never exceed the global limit, the day's stamps arriving as one block or being no more than the limit |
| BudgetCeiling.GrantedExactly | workers/site/builder-budget.js:22-27 | in every run, the reservations granted for a day are within the global limit if and only if the day's stamps arrived so |
| BudgetCeiling.GlobalCeilingExactly | workers/site/neobank-builder.js:249-300 | for a positive tenant limit and any order of stamps, the paid calls of a day stay within the global limit in every run with it, if and only if the day's stamps form one block or are no more than the limit |
| BudgetCeiling.MidnightBreaksEveryGlobalCeiling | workers/site/neobank-builder.js:276-279 | for every positive limit, clocks that disagree around midnight lead to a run whose paid calls of a day exceed it |
| BuilderProtocol.EveryCallIsReserved | workers/site/neobank-builder.js:271-300 | every paid call has its own allowed reservation |
| BuilderProtocol.WholeRequests | workers/site/neobank-builder.js:244-326 | from any point of any run, a request served without interruption: refused and free, charged and refused, or charged and called once, an answer joining the transcript; it is over either way and touches no other agent |
| TenantCeiling.TenantCeiling | workers/site/neobank-builder.js:244-301 | without stale answers no more requests are admitted or paid for than the limit of a day whose stamps form one block, requests overlapping or not, even when turns fail |
| TenantCeiling.AdmissionsExactly | workers/site/neobank-builder.js:249-261 | without stale answers, whatever the clock, a day's admissions are within the limit if and only if the day's stamps form one block or are no more than the limit |
| TenantCeiling.CeilingExactlyWithoutStaleAnswers | workers/site/neobank-builder.js:249-301 | clocks in order, the limit is kept at every point of a run and whatever is admitted from there, if and only if no answer of the run is stale |
| TenantCeiling.OneAtATimeIsCurrent | workers/site/neobank-builder.js:244-301 | one request at a time: no answer is stale, and the stored messages are the last twenty of the transcript |
| TenantCeiling.ClocksKeepBothCeilings | workers/site/neobank-builder.js:244-301 | with clocks that never run back and no stale answer both ceilings hold on every day |
| BuilderAgent.TurnsShowTheTranscript | workers/site/neobank-builder.js:332-355 | the two twenty-message cuts of a turn compose to one cut of the transcript |
| TenantOverlap.OverlapBreaksEveryTenantCeiling | workers/site/neobank-builder.js:249-301 | for every limit there are overlapping requests of one agent that exceed it, clocks in order |
| SingleFlight.Flights.Call | src/singleFlight.js:4-13 | a caller gets the flight that is still open if there is one, otherwise a new one, and no other flight changes |
| SingleFlight.Flights.Finally | src/singleFlight.js:8-10 | whatever the outcome, no flight is open afterwards, the cache is empty, and outcomes and other flights are unchanged |
| SingleFlight.AtMostOneOpen | src/singleFlight.js:3-13 | in every run, two flights that are not finished are the same flight, and a call is handed it |
| SingleFlight.NeverTheFinishedFlight | src/singleFlight.js:5-12 | in every run, a flight once finished is never handed out again |
| KeyRecovery.OneSignupInFlight | src/api.ts:225-231 | in every interleaving at most one sign-up is in flight, and it belongs to the pending flight |
| KeyRecovery.WaitersShareTheFlight | src/api.ts:101-114 | a waiting caller either can resume or waits for the one pending flight |
| KeyRecovery.PendingFlightCanMove | src/singleFlight.js:6-10 | a pending flight always has a next step, so no waiter is stranded |
| KeyRecovery.EveryWaiterGetsTheTasksOutcome | src/api.ts:101-114 | the outcome a task settles with reaches every caller of its flight: a rejection throws, a key request answers the key itself, a call sends its request again with the stored key if the flight gave a key and keeps its 401 otherwise |
| KeyRecovery.SecondReplyIsTheResult | src/api.ts:110-113 | a call's second reply is its result, whatever it is, and results are final |
| KeyRecovery.FirstReplyStandsUnlessRecovered | src/api.ts:106-113 | a first reply is the result unless it is a 401 to a call with a key while one is stored, which discards the key and recovers |
| KeyRecovery.CallsCarryTheKey | src/api.ts:67-70 | a call sends one request, with the stored key exactly if it is to use one and there is one |
| KeyRecovery.KeyRequests | src/api.ts:233-235 | with a key stored a key request is answered at once, otherwise it waits for the pending flight |
| KeyRecovery.UndisturbedRecovery | src/api.ts:101-114 | undisturbed, a recovery signs up once, stores the new key and sends the request again with it |
| KeyRecovery.TasksReuseAStoredKey | src/api.ts:225-227 | a task that finds a key stored gives it out and signs up nobody |
| KeyRecovery.FailedSignups | src/api.ts:228-230 | a sign-up that throws rejects its flight, one without a key resolves it with none, and the stored key stays |
| KeyRecovery.ResumedCallersGetANewFlight | src/singleFlight.js:4-13 | a caller that resumes, after success or failure, is never handed the same flight again |
| KeyRecovery.AtMostOneRetry | src/api.ts:101-114 | no call sends more than two requests |
| KeyRecovery.OneSignupPerFlight | src/api.ts:225-231 | each flight signs up at most once |
| KeyRecovery.SignupsHaveReasons | src/api.ts:101-114 | from any point of any run, sign-ups never outnumber newly rejected keys, cleared keys and failed sign-ups, unless a 401 wastes a key |
| KeyRecovery.ReasonsAreCounted | src/api.ts:101-114 | the reasons for sign-ups count failed sign-ups, keys others cleared, and the different keys rejected |
| KeyRecovery.SignupsAreBounded | src/api.ts:225-231 | a whole run that wastes no key signs up at most once more than that |
| KeyRecovery.WasteIsLate | src/api.ts:108-110 | when rejected keys are not stored again, only a late 401 - one for a key other than the stored one - wastes a key |
| KeyRecovery.PromptRepliesBoundSignups | src/api.ts:101-114 | if rejected keys are never stored again and no 401 is late, sign-ups are at most one more than rejected keys, cleared keys and failed sign-ups |
| KeyRecovery.ExtraSignupsExactly | src/api.ts:108-110 | a 401 that discards a key can go on to cost a sign-up beyond its reasons if and only if it rejects no new key and finds no sign-up in flight |
| KeyRecovery.LateRepliesCostASignup | src/api.ts:108-110 | from every late 401 that finds no sign-up in flight the run can go on to one more sign-up; if rejected keys are never stored again, the discarded key is not among the rejected ones |
| KeyRecovery.OneExpiryCanSignUpTwice | src/api.ts:108-110 | such a run exists: one expired key, two sign-ups |
| Blueprint.CleanExactly | src/blueprint/share.ts:25-29 | cleaning leaves a text alone if and only if it is short enough, printable and trimmed |
| Blueprint.TwoPassesClean | src/blueprint/share.ts:25-29 | two cleaning passes reach a fixed point; one does exactly when the first and last units the cut text shows are no spaces |
| Blueprint.OnePassCanMissSpace | src/blueprint/share.ts:25-29 | a control character in front of a space makes one pass fall short |
| Blueprint.OneCutCanEndInSpace | src/blueprint/share.ts:25-29 | for every length, a cut that lands on a space makes one pass fall short |
| Blueprint.TrimTakesSpace | src/blueprint/share.ts:27 | trimming takes white space off both ends and nothing else |
| Blueprint.StripIsPiecewise | src/blueprint/share.ts:27 | stripping takes out each control character and leaves every other unit in its place |
| Blueprint.CharacterClasses | src/blueprint/share.ts:27 | which units are white space and which are stripped |
| Blueprint.ArraysKeepFirsts | src/blueprint/share.ts:31-40 | a cleaned array holds the first occurrences of its items' cleaned texts, in order and without empty ones: all of them, or the first sixteen |
| Blueprint.SecondListIsClean | src/blueprint/share.ts:31-40 | a list cleaned twice is clean: short, trimmed and printable items, none empty, none repeated |
| Blueprint.UpperIsStable | src/blueprint/share.ts:42-45 | an accepted accent has the accepted form and is its own upper case |
| Blueprint.SanitizeShared | src/blueprint/share.ts:47-73 | sanitising the shared object cleans exactly its own fields again |
| Blueprint.BrandComesFirst | src/blueprint/share.ts:55-60 | any input that sanitises gets its brand's colour in upper case, or else its own, or none |
| Blueprint.NothingSharedExactly | src/blueprint/share.ts:62 | nothing is shared if and only if the name cleans to nothing or no capability has text left |
| Blueprint.SanitizedIsBounded | src/blueprint/share.ts:20-45 | the name, lists, items and accent of any sanitised blueprint keep their limits |
| Blueprint.SharingKeepsExactlyCleanBlueprints | src/blueprint/share.ts:47-73 | sanitising what a blueprint shares gives it back if and only if it is clean |
| Blueprint.TwoPassesSanitize | src/blueprint/share.ts:47-73 | a second pass over a sanitised blueprint gives nothing, or a clean blueprint |
| Blueprint.SecondPassLosesExactlyBlanks | src/blueprint/share.ts:47-73 | a second pass gives nothing if and only if the first left a blank name or only blank capabilities |
| UriCoding.UriRoundTrip | src/blueprint/share.ts:78-89 | encoding succeeds exactly on well-formed text and decoding gives the text back |
| UriCoding.EncodeUriEscapes | src/blueprint/share.ts:78 | an encoded text is made of unreserved characters and percent signs with two upper-case hex digits |
| UriCoding.ReadsOnlyUtf8 | src/blueprint/share.ts:87-89 | decoding reads only the shortest UTF-8 form of a Unicode scalar value |
| UriCoding.ScalarsMakeWellFormedText | src/blueprint/share.ts:78-89 | the code points encoded and decoded are those of well-formed text |
| UriCoding.UnreservedExactly | src/blueprint/share.ts:78 | the letters, the digits and nine marks are left alone |
| ShareLink.StringifyIsWellFormed | src/blueprint/share.ts:78 | a serialised value is well-formed text, so encoding a link never throws |
| ShareLink.RoundTrip | src/blueprint/share.ts:75-95 | decoding an encoded blueprint gives its second pass, nothing included, exactly when the link is short enough |
| ShareLink.BrandArrives | src/blueprint/share.ts:55-95 | the brand's colour, or else the input's own, arrives in upper case at whoever opens the link |
| ShareLink.AccentsAreColours | src/blueprint/share.ts:42-45 | an accent is a number sign and six hex digits, and upper case keeps each digit's value |
| ShareLink.DecodesAnyValue | src/blueprint/share.ts:81-95 | any value put in a link decodes to its sanitised self if its version is the number 1 and the link is short enough, and to nothing otherwise |
| ShareLink.DecodedBlueprintsAreStable | src/blueprint/share.ts:75-95 | what a link stands for is clean, so it is shared and decoded again unchanged |
| LinkLength.EncodedLength | src/blueprint/share.ts:78 | a well-formed text takes, encoded, the sum of what its code points take |
| LinkLength.LinkLengthExactly | src/blueprint/share.ts:75-79 | a link is exactly as long as the characters of its blueprint make it |
| LinkLength.DecodesExactlyWhenShort | src/blueprint/share.ts:75-95 | whether a link decodes, and to what, told from the blueprint alone |
| LinkLength.PlainLinksAlwaysDecode | src/blueprint/share.ts:20-23 | blueprints of unreserved characters never exceed the limit, so their links always decode |
| LinkLength.SomeLinksDecodeToNothing | src/blueprint/share.ts:81-82 | a clean blueprint in a three-byte script makes a link that decodes to nothing |
| Matching.FillWeights | src/ecosystem/matching.ts:110-118 | the nested loops fill the specified map |
| Matching.WeightsAreLargest | src/ecosystem/matching.ts:110-118 | a category's weight is the largest any capability asks of it |
| Matching.MatchesExactly | src/ecosystem/matching.ts:119-122 | a provider matches if and only if some capability asks for one of its categories |
| Matching.CategoryAddsItsWeight | src/ecosystem/matching.ts:124-127 | one more category adds the largest weight asked of it |
| Matching.BareScore | src/ecosystem/matching.ts:124-139 | a provider with one category scores its weight, less 3 unless the whole world is asked for |
| Matching.RegionsAreWorth | src/ecosystem/matching.ts:128-139 | a region fit is worth 4, serving the world 2 |
| Matching.RailsAreWorth | src/ecosystem/matching.ts:141-147 | one matching rail is worth 2, two or more are worth 4 |
| Matching.FlagsAreWorth | src/ecosystem/matching.ts:149-150 | a sandbox and an included descriptor are worth 1 each |
| Matching.AskingMoreNeverScoresLess | src/ecosystem/matching.ts:106-151 | adding capabilities, rails, or markets to a non-empty list never lowers a score or drops a match |
| Matching.ScoreIgnoresOrder | src/ecosystem/matching.ts:106-151 | the score ignores order and repetition of capabilities and markets, and the order of rails |
| Matching.FirstMarketExactly | src/ecosystem/matching.ts:101-140 | adding the first market never lowers a provider's score if and only if the table lists it or the provider does not serve the world, and never drops or adds a match |
| Matching.FirstMarketExactlyIfListed | src/ecosystem/matching.ts:101-104 | adding the first market never lowers a score exactly when the table lists it |
| Ranking.TopMatchesAreTheBest | src/ecosystem/matching.ts:174-186 | the list goes by falling score and then by name, is as long as the limit allows, and no match left out has a higher score, or the same and an earlier name |
| Ranking.TiesKeepTheirOrder | src/ecosystem/matching.ts:180-184 | matches of the same score and name keep the order of the catalogue |
| Ranking.MatchesConcat | src/ecosystem/matching.ts:178-179 | no match is lost or repeated |
| Ranking.MatchesAreScored | src/ecosystem/matching.ts:178-179 | the ranked matches are exactly the providers with a score |

## Left out

- Regular expressions and formats: two uninterpreted tests on text, carried by the registry.
- The wording of error messages; an error is its path and the rule it names.
- A registry that is not guarded: the source then may overflow the stack, which is not modelled.
- Non-finite numbers, negative zero and IEEE-754 rounding; the demo market and spread inputs use reals.
- `atomic` and the six-decimal strings of a leg, trade building, storage and expiry.
- `operationIndex`, the model's output parsing and `normalizedDraft`: a turn either fails or answers.
- `readBoundedJson` and the checks on a request before admission; a request that fails them changes nothing.
- Request bodies, headers and the network: replies and sign-up results are arbitrary steps.
- `call`, `signup`, `provisionKey` and the interleaved agents are steps on values, not methods on a shared heap, because their pauses interleave; the stored key may also be set or cleared by others at any step.
- Rounding of numerals to doubles: a parsed numeral is its exact decimal, so only a numeral of value one
  passes as version 1.
- Text search for rail terms, `trim` and lower-casing of region names, and the `reasons` of a match.
- User interface, catalogues and static tables other than the shipped FX sources, mids and weights.
