/** The result controller of the server (server/controllers/result.ts):
    turning stored result documents into results, hiding account secrets,
    deciding which results are shared, and flipping the share flag.

    The stored results and accounts are parameters: `records` is the
    results table in table order, `accounts` maps an account id to its
    account, as the lookups of the account model return them. */
module ResultController {
  import opened Wrappers
  import opened Strings
  import opened Interfaces
  import opened Sequences

  /** `ResultDocument`, the stored form of a result.  `dateRun` is a
      timestamp. */
  datatype ResultDocument = ResultDocument(
    uid: string,
    deleted: bool,
    dateRun: int,
    boptestVersion: string,
    isShared: bool,
    tags: seq<string>,
    thermalDiscomfort: real,
    energyUse: real,
    cost: real,
    emissions: real,
    iaq: real,
    timeRatio: real,
    peakElectricity: real,
    peakGas: Option<real>,
    peakDistrictHeating: Option<real>,
    timePeriod: string,
    controlStep: string,
    electricityPrice: string,
    weatherForecastUncertainty: string,
    forecastParameters: Json,
    scenario: Json,
    accountId: int,
    buildingTypeUid: string,
    buildingTypeName: string)

  /** A stored result document with its numeric id. */
  datatype ResultRecord = ResultRecord(numericId: int, data: ResultDocument)

  // ---------------------------------------------------------------------
  // Sanitising accounts

  /** `sanitizeAccountForResult`: the credentials are blanked and the
      account's own result list is dropped; nothing else changes. */
  function SanitizeAccountForResult(account: Account): (r: Account)
    ensures r.apiKey == "" && r.apiKeySalt == "" && r.results == []
    ensures r.id == account.id && r.hashedIdentifier == account.hashedIdentifier
    ensures r.displayName == account.displayName && r.shareAllResults == account.shareAllResults
    ensures r.oauthProvider == account.oauthProvider
  {
    account.(apiKey := "", apiKeySalt := "", results := [])
  }

  /** What a sanitised account shows does not depend on the credentials it
      had. */
  lemma SanitizedAccountHidesCredentials(a: Account, b: Account)
    requires a.(apiKey := b.apiKey, apiKeySalt := b.apiKeySalt, results := b.results) == b
    ensures SanitizeAccountForResult(a) == SanitizeAccountForResult(b)
  {
  }

  /** The account of a shared result once `apiKey`, `apiKeySalt`,
      `shareAllResults`, `results` and `id` are deleted from it. */
  datatype PublicAccount = PublicAccount(hashedIdentifier: string, displayName: string, oauthProvider: string)

  /** Two results agree on everything but their account. */
  predicate SameFields<A, B>(x: Result<A>, y: Result<B>) {
    x.id == y.id && x.uid == y.uid && x.deleted == y.deleted && x.dateRun == y.dateRun &&
    x.boptestVersion == y.boptestVersion && x.isShared == y.isShared && x.tags == y.tags &&
    x.thermalDiscomfort == y.thermalDiscomfort && x.energyUse == y.energyUse && x.cost == y.cost &&
    x.emissions == y.emissions && x.iaq == y.iaq && x.timeRatio == y.timeRatio &&
    x.peakElectricity == y.peakElectricity && x.peakGas == y.peakGas &&
    x.peakDistrictHeating == y.peakDistrictHeating && x.timePeriod == y.timePeriod &&
    x.controlStep == y.controlStep && x.electricityPrice == y.electricityPrice &&
    x.weatherForecastUncertainty == y.weatherForecastUncertainty &&
    x.forecastParameters == y.forecastParameters && x.scenario == y.scenario &&
    x.buildingType == y.buildingType
  }

  /** `sanitizeSharedResult`: the account keeps only its public fields; the
      rest of the result is untouched. */
  function SanitizeSharedResult(result: Result<Account>): (r: Result<PublicAccount>)
    ensures r.account == PublicAccount(result.account.hashedIdentifier, result.account.displayName,
                                       result.account.oauthProvider)
    ensures SameFields(r, result)
  {
    var a := result.account;
    Result(result.id, result.uid, result.deleted, result.dateRun, result.boptestVersion, result.isShared,
           result.tags, result.thermalDiscomfort, result.energyUse, result.cost, result.emissions,
           result.iaq, result.timeRatio, result.peakElectricity, result.peakGas,
           result.peakDistrictHeating, result.timePeriod, result.controlStep, result.electricityPrice,
           result.weatherForecastUncertainty, result.forecastParameters, result.scenario,
           PublicAccount(a.hashedIdentifier, a.displayName, a.oauthProvider), result.buildingType)
  }

  /** `filtered.map(sanitizeSharedResult)`. */
  function SanitizeAll(results: seq<Result<Account>>): (r: seq<Result<PublicAccount>>)
    ensures |r| == |results|
    ensures forall i :: 0 <= i < |r| ==> r[i] == SanitizeSharedResult(results[i])
  {
    if results == [] then [] else [SanitizeSharedResult(results[0])] + SanitizeAll(results[1..])
  }

  // ---------------------------------------------------------------------
  // From documents to results

  /** `toResult`: the numeric id becomes the id, the account is sanitised,
      and a blank building type uid or name falls back to a placeholder. */
  function ToResult(record: ResultRecord, account: Account): (r: Result<Account>)
    ensures r.id == record.numericId && r.uid == record.data.uid && r.deleted == record.data.deleted
    ensures r.isShared == record.data.isShared && r.dateRun == record.data.dateRun
    ensures r.account == SanitizeAccountForResult(account)
    ensures r.buildingType.uid ==
      (if record.data.buildingTypeUid != "" then record.data.buildingTypeUid else "unknown-building")
    ensures r.buildingType.name ==
      (if record.data.buildingTypeName != "" then record.data.buildingTypeName
       else if record.data.buildingTypeUid != "" then record.data.buildingTypeUid
       else "Unknown Building")
    ensures r.buildingType.uid != "" && r.buildingType.name != ""
  {
    var d := record.data;
    var uid := if d.buildingTypeUid != "" then d.buildingTypeUid else "unknown-building";
    var name := if d.buildingTypeName != "" then d.buildingTypeName
                else if d.buildingTypeUid != "" then d.buildingTypeUid
                else "Unknown Building";
    Result(record.numericId, d.uid, d.deleted, d.dateRun, d.boptestVersion, d.isShared, d.tags,
           d.thermalDiscomfort, d.energyUse, d.cost, d.emissions, d.iaq, d.timeRatio,
           d.peakElectricity, d.peakGas, d.peakDistrictHeating, d.timePeriod, d.controlStep,
           d.electricityPrice, d.weatherForecastUncertainty, d.forecastParameters, d.scenario,
           SanitizeAccountForResult(account), BuildingTypeRef(uid, name))
  }

  /** The results that `hydrateResults` builds: one per record whose
      account exists, in record order. */
  function Hydrated(records: seq<ResultRecord>, accounts: map<int, Account>): seq<Result<Account>> {
    if records == [] then []
    else
      var rest := Hydrated(records[..|records| - 1], accounts);
      var last := records[|records| - 1];
      if last.data.accountId in accounts then rest + [ToResult(last, accounts[last.data.accountId])]
      else rest
  }

  /** Hydration works record by record: the results of a concatenation are
      the concatenated results, so the order of the records is kept. */
  lemma {:induction false} HydratedConcat(a: seq<ResultRecord>, b: seq<ResultRecord>, accounts: map<int, Account>)
    ensures Hydrated(a + b, accounts) == Hydrated(a, accounts) + Hydrated(b, accounts)
    decreases |b|
  {
    if b == [] {
      assert a + b == a;
    } else {
      var b' := b[..|b| - 1];
      assert (a + b)[..|a + b| - 1] == a + b';
      assert (a + b)[|a + b| - 1] == b[|b| - 1];
      HydratedConcat(a, b', accounts);
    }
  }

  /** A hydrated result comes from a record with a known account, and
      every such record gives one. */
  lemma HydratedMembers(records: seq<ResultRecord>, accounts: map<int, Account>, x: Result<Account>)
    ensures x in Hydrated(records, accounts) <==>
      exists i :: 0 <= i < |records| && records[i].data.accountId in accounts &&
                  x == ToResult(records[i], accounts[records[i].data.accountId])
  {
    if x in Hydrated(records, accounts) {
      HydratedSound(records, accounts, x);
    }
    if exists i :: 0 <= i < |records| && records[i].data.accountId in accounts &&
                   x == ToResult(records[i], accounts[records[i].data.accountId]) {
      var i :| 0 <= i < |records| && records[i].data.accountId in accounts &&
               x == ToResult(records[i], accounts[records[i].data.accountId]);
      HydratedComplete(records, accounts, i);
    }
  }

  lemma {:induction false} HydratedSound(records: seq<ResultRecord>, accounts: map<int, Account>, x: Result<Account>)
    requires x in Hydrated(records, accounts)
    ensures exists i :: 0 <= i < |records| && records[i].data.accountId in accounts &&
                        x == ToResult(records[i], accounts[records[i].data.accountId])
  {
    var init := records[..|records| - 1];
    var last := records[|records| - 1];
    if x in Hydrated(init, accounts) {
      HydratedSound(init, accounts, x);
      var i :| 0 <= i < |init| && init[i].data.accountId in accounts &&
               x == ToResult(init[i], accounts[init[i].data.accountId]);
      assert records[i] == init[i];
    } else {
      assert last.data.accountId in accounts && x == ToResult(last, accounts[last.data.accountId]);
    }
  }

  lemma {:induction false} HydratedComplete(records: seq<ResultRecord>, accounts: map<int, Account>, i: nat)
    requires i < |records| && records[i].data.accountId in accounts
    ensures ToResult(records[i], accounts[records[i].data.accountId]) in Hydrated(records, accounts)
  {
    var init := records[..|records| - 1];
    if i < |init| {
      assert init[i] == records[i];
      HydratedComplete(init, accounts, i);
    }
  }

  /** Nothing is skipped when every account is known. */
  lemma {:induction false} HydratedAllKnown(records: seq<ResultRecord>, accounts: map<int, Account>)
    requires forall i :: 0 <= i < |records| ==> records[i].data.accountId in accounts
    ensures |Hydrated(records, accounts)| == |records|
  {
    if records != [] {
      HydratedAllKnown(records[..|records| - 1], accounts);
    }
  }

  /** `hydrateResults`: records whose account cannot be found are skipped,
      the others become results in their original order. */
  method HydrateResults(records: seq<ResultRecord>, accounts: map<int, Account>) returns (hydrated: seq<Result<Account>>)
    ensures hydrated == Hydrated(records, accounts)
    ensures records == [] ==> hydrated == []
    ensures |hydrated| <= |records|
  {
    if |records| == 0 {
      return [];
    }
    hydrated := [];
    var i := 0;
    while i < |records|
      invariant 0 <= i <= |records|
      invariant hydrated == Hydrated(records[..i], accounts)
      invariant |hydrated| <= i
    {
      assert records[..i + 1][..i] == records[..i];
      var record := records[i];
      if record.data.accountId in accounts {
        hydrated := hydrated + [ToResult(record, accounts[record.data.accountId])];
      }
      i := i + 1;
    }
    assert records[..|records|] == records;
  }

  // ---------------------------------------------------------------------
  // Who sees a shared result

  /** The share rule of a hydrated result. */
  predicate CanShare(result: Result<Account>) {
    result.account.shareAllResults == Some(true) || result.isShared
  }

  function CanShareSelector(): Result<Account> -> bool {
    (r: Result<Account>) => CanShare(r)
  }

  function ActiveSelector(): ResultRecord -> bool {
    (r: ResultRecord) => !r.data.deleted
  }

  /** The visibility rule stated on a stored record: not deleted, owned by
      a known account, and shared by the result or by the whole account. */
  predicate Visible(record: ResultRecord, accounts: map<int, Account>) {
    !record.data.deleted && record.data.accountId in accounts &&
    (accounts[record.data.accountId].shareAllResults == Some(true) || record.data.isShared)
  }

  /** `findResultByUid`: the first record with that uid. */
  function FindByUid(records: seq<ResultRecord>, uid: string): (r: Option<ResultRecord>)
    ensures r.None? <==> forall i :: 0 <= i < |records| ==> records[i].data.uid != uid
    ensures r.Some? ==> exists i :: (0 <= i < |records| && records[i] == r.value && r.value.data.uid == uid &&
      forall j :: 0 <= j < i ==> records[j].data.uid != uid)
  {
    if records == [] then None
    else if records[0].data.uid == uid then Some(records[0])
    else
      var r := FindByUid(records[1..], uid);
      assert forall i :: 0 < i < |records| ==> records[i] == records[1..][i - 1];
      if r.Some? then
        var i :| (0 <= i < |records[1..]| && records[1..][i] == r.value && r.value.data.uid == uid &&
          forall j :: 0 <= j < i ==> records[1..][j].data.uid != uid);
        assert records[i + 1] == r.value;
        assert forall j :: 0 <= j < i + 1 ==> records[j].data.uid != uid by {
          forall j | 0 <= j < i + 1 ensures records[j].data.uid != uid {
            if j > 0 { assert records[j] == records[1..][j - 1]; }
          }
        }
        r
      else r
  }

  /** `getSharedResultByUid`: the sanitised result exactly when its record
      is visible. */
  method GetSharedResultByUid(records: seq<ResultRecord>, accounts: map<int, Account>, uid: string)
    returns (r: Option<Result<PublicAccount>>)
    ensures var found := FindByUid(records, uid);
      (r.Some? <==> found.Some? && Visible(found.value, accounts)) &&
      (r.Some? ==> r.value == SanitizeSharedResult(ToResult(found.value, accounts[found.value.data.accountId])))
  {
    var record := FindByUid(records, uid);
    if record.None? || record.value.data.deleted {
      return None;
    }
    var hydrated := HydrateResults([record.value], accounts);
    assert [record.value][..0] == [];
    if |hydrated| == 0 {
      return None;
    }
    var result := hydrated[0];
    var shareAll := result.account.shareAllResults;
    var canShare := shareAll == Some(true) || result.isShared;
    if !canShare {
      return None;
    }
    r := Some(SanitizeSharedResult(result));
  }

  /** `getAllSharedResults`: the active records are hydrated, those that
      may be shared are kept and sanitised. */
  method GetAllSharedResults(records: seq<ResultRecord>, accounts: map<int, Account>)
    returns (r: seq<Result<PublicAccount>>)
    ensures r == SharedList(records, accounts)
  {
    var active := Filter(records, ActiveSelector());
    var hydrated := HydrateResults(active, accounts);
    var filtered := Filter(hydrated, CanShareSelector());
    r := SanitizeAll(filtered);
  }

  /** The records that `getAllSharedResults` publishes. */
  function SharedList(records: seq<ResultRecord>, accounts: map<int, Account>): seq<Result<PublicAccount>> {
    SanitizeAll(Filter(Hydrated(Filter(records, ActiveSelector()), accounts), CanShareSelector()))
  }

  /** Everything on the shared list comes from a visible record. */
  lemma SharedListSound(records: seq<ResultRecord>, accounts: map<int, Account>, x: Result<PublicAccount>)
    requires x in SharedList(records, accounts)
    ensures exists i :: 0 <= i < |records| && Visible(records[i], accounts) &&
                        x == SanitizeSharedResult(ToResult(records[i], accounts[records[i].data.accountId]))
  {
    var active := Filter(records, ActiveSelector());
    var hydrated := Hydrated(active, accounts);
    var shared := Filter(hydrated, CanShareSelector());
    var out := SanitizeAll(shared);
    var k :| 0 <= k < |out| && out[k] == x;
    var y := shared[k];
    assert y in shared;
    assert y in hydrated && CanShare(y);
    HydratedMembers(active, accounts, y);
    var j :| 0 <= j < |active| && active[j].data.accountId in accounts &&
             y == ToResult(active[j], accounts[active[j].data.accountId]);
    assert active[j] in active;
    var i :| 0 <= i < |records| && records[i] == active[j];
    assert Visible(records[i], accounts);
  }

  /** Every visible record is on the shared list. */
  lemma SharedListComplete(records: seq<ResultRecord>, accounts: map<int, Account>, i: nat)
    requires i < |records| && Visible(records[i], accounts)
    ensures SanitizeSharedResult(ToResult(records[i], accounts[records[i].data.accountId])) in SharedList(records, accounts)
  {
    var active := Filter(records, ActiveSelector());
    var hydrated := Hydrated(active, accounts);
    var shared := Filter(hydrated, CanShareSelector());
    var y := ToResult(records[i], accounts[records[i].data.accountId]);
    assert records[i] in records;
    assert records[i] in active;
    var j :| 0 <= j < |active| && active[j] == records[i];
    HydratedMembers(active, accounts, y);
    assert y in hydrated && CanShare(y);
    assert y in shared;
    var k :| 0 <= k < |shared| && shared[k] == y;
    assert SanitizeAll(shared)[k] == SanitizeSharedResult(y);
  }

  // ---------------------------------------------------------------------
  // A user's own results

  /** The optional filters of a user's results page. */
  datatype UserFilters = UserFilters(buildingTypeUid: Option<string>, buildingTypeName: Option<string>)

  /** The filter of `getUserResultsPage`: a given building type uid or name
      must occur, ignoring case, in the result's own. */
  predicate PassesUserFilters(result: Result<Account>, filters: UserFilters) {
    (Given(filters.buildingTypeUid) ==>
       Contains(Lower(result.buildingType.uid), Lower(filters.buildingTypeUid.value))) &&
    (Given(filters.buildingTypeName) ==>
       Contains(Lower(result.buildingType.name), Lower(filters.buildingTypeName.value)))
  }

  function UserFilterSelector(filters: UserFilters): Result<Account> -> bool {
    (r: Result<Account>) => PassesUserFilters(r, filters)
  }

  lemma LowerIdempotent(s: string)
    ensures Lower(Lower(s)) == Lower(s)
  {
    var l := Lower(s);
    var ll := Lower(l);
    forall i | 0 <= i < |s| ensures ll[i] == l[i] {
    }
  }

  /** The filter ignores the case of what is typed: an upper-cased filter
      keeps the same results. */
  lemma UserFiltersIgnoreCase(result: Result<Account>, uid: string, name: string)
    ensures PassesUserFilters(result, UserFilters(Some(uid), Some(name))) ==
            PassesUserFilters(result, UserFilters(Some(Lower(uid)), Some(Lower(name))))
  {
    LowerIdempotent(uid);
    LowerIdempotent(name);
  }

  /** Filtering on a result's own building type keeps it. */
  lemma OwnBuildingTypePasses(result: Result<Account>)
    ensures PassesUserFilters(result, UserFilters(Some(result.buildingType.uid), Some(result.buildingType.name)))
  {
    assert FactorAt(Lower(result.buildingType.uid), 0, Lower(result.buildingType.uid));
    assert FactorAt(Lower(result.buildingType.name), 0, Lower(result.buildingType.name));
  }

  /** Filter texts that are missing or empty filter nothing: the source
      tests each one for truthiness before comparing. */
  lemma EmptyFiltersKeepAll(result: Result<Account>, uid: Option<string>, name: Option<string>)
    requires uid.None? || uid == Some("")
    requires name.None? || name == Some("")
    ensures PassesUserFilters(result, UserFilters(uid, name))
  {
  }

  /** A page of results with its cursor. */
  datatype ResultsPage = ResultsPage(results: seq<Result<Account>>, hasNext: bool, nextCursor: Option<int>)

  /** `getUserResultsPage`: the records of the page are hydrated and, when
      filters are given, narrowed by them; the paging information is passed
      through. */
  method GetUserResultsPage(pageRecords: seq<ResultRecord>, hasNext: bool, nextCursor: Option<int>,
                            accounts: map<int, Account>, filters: Option<UserFilters>)
    returns (page: ResultsPage)
    ensures page.hasNext == hasNext && page.nextCursor == nextCursor
    ensures filters.None? ==> page.results == Hydrated(pageRecords, accounts)
    ensures filters.Some? ==> page.results == Filter(Hydrated(pageRecords, accounts), UserFilterSelector(filters.value))
    ensures forall x :: x in page.results <==>
      x in Hydrated(pageRecords, accounts) && (filters.Some? ==> PassesUserFilters(x, filters.value))
  {
    var hydrated := HydrateResults(pageRecords, accounts);
    if filters.Some? {
      hydrated := Filter(hydrated, UserFilterSelector(filters.value));
    }
    page := ResultsPage(hydrated, hasNext, nextCursor);
  }

  function OwnedBySelector(accountId: int): ResultRecord -> bool {
    (r: ResultRecord) => r.data.accountId == accountId
  }

  /** The account map is keyed by the accounts' own ids. */
  predicate KeyedById(accounts: map<int, Account>) {
    forall k :: k in accounts ==> accounts[k].id == k
  }

  /** `getAllResultsForUser`: a user id that does not parse, or names no
      account, is an error; otherwise the user's results that are not
      deleted, in table order. */
  method GetAllResultsForUser(records: seq<ResultRecord>, accounts: map<int, Account>, userId: string)
    returns (r: Outcome<seq<Result<Account>>>)
    ensures ParseInt(userId).None? ==> r == Failure("Invalid user ID")
    ensures ParseInt(userId).Some? && ParseInt(userId).value !in accounts ==>
      r == Failure("Account " + IntToString(ParseInt(userId).value) + " not found")
    ensures ParseInt(userId).Some? && ParseInt(userId).value in accounts ==>
      r == Success(Hydrated(Filter(Filter(records, OwnedBySelector(ParseInt(userId).value)), ActiveSelector()), accounts))
    ensures r.Success? ==> forall x :: x in r.value ==> !x.deleted
    ensures r.Success? && KeyedById(accounts) ==>
      forall x :: x in r.value ==> x.account.id == ParseInt(userId).value
  {
    var accountId := ParseInt(userId);
    if accountId.None? {
      return Failure("Invalid user ID");
    }
    if accountId.value !in accounts {
      return Failure("Account " + IntToString(accountId.value) + " not found");
    }
    var owned := Filter(records, OwnedBySelector(accountId.value));
    var active := Filter(owned, ActiveSelector());
    var hydrated := HydrateResults(active, accounts);
    forall x | x in hydrated
      ensures !x.deleted
      ensures KeyedById(accounts) ==> x.account.id == accountId.value
    {
      HydratedMembers(active, accounts, x);
      var i :| 0 <= i < |active| && active[i].data.accountId in accounts &&
               x == ToResult(active[i], accounts[active[i].data.accountId]);
      assert active[i] in active;
    }
    r := Success(hydrated);
  }

  // ---------------------------------------------------------------------
  // Storing a submitted result

  /** The KPI block of a submitted result. */
  datatype Kpis = Kpis(
    tdis_tot: real,
    ener_tot: real,
    cost_tot: real,
    emis_tot: real,
    idis_tot: real,
    time_rat: real,
    pele_tot: real,
    pgas_tot: Option<real>,
    pdih_tot: Option<real>)

  /** A result as a test client submits it. */
  datatype Submission = Submission(
    uid: string,
    dateRun: int,
    boptestVersion: string,
    isShared: bool,
    tags: Option<seq<string>>,
    kpis: Kpis,
    scenario: Json,
    controlStep: string,
    forecastParameters: Option<Json>)

  /** `toJsonObject`: an object (arrays included) is kept, anything else
      becomes `{}`. */
  function ToJsonObject(value: Option<Json>): (r: Json)
    ensures r.JObj? || r.JArr?
    ensures value.Some? && (value.value.JObj? || value.value.JArr?) ==> r == value.value
  {
    if value.Some? && (value.value.JObj? || value.value.JArr?) then value.value else JObj([])
  }

  /** `scenario[key]` when it is a string; the stored document reads a
      missing or non-string value as the empty string. */
  function StringAt(scenario: Json, key: string): Option<string> {
    if scenario.JObj? && Get(scenario.entries, key).Some? && Get(scenario.entries, key).value.JStr? then
      Some(Get(scenario.entries, key).value.s)
    else None
  }

  /** `buildResultDocument`: a stored document that is not deleted, belongs
      to the submitting account and carries the building type it is filed
      under. Reading `timePeriod` off a null scenario throws, so a null
      scenario builds no document. */
  function BuildResultDocument(result: Submission, account: Account, buildingTypeUid: string, buildingTypeName: string)
    : (d: Outcome<ResultDocument>)
    ensures d.Failure? <==> result.scenario.JNull?
    ensures d.Success? ==> var v := d.value;
      !v.deleted && v.accountId == account.id &&
      v.uid == result.uid && v.dateRun == result.dateRun && v.isShared == result.isShared &&
      v.tags == result.tags.GetOr([]) &&
      v.buildingTypeUid == buildingTypeUid && v.buildingTypeName == buildingTypeName &&
      v.boptestVersion == result.boptestVersion && v.controlStep == result.controlStep &&
      v.thermalDiscomfort == result.kpis.tdis_tot && v.energyUse == result.kpis.ener_tot &&
      v.cost == result.kpis.cost_tot && v.emissions == result.kpis.emis_tot &&
      v.iaq == result.kpis.idis_tot && v.timeRatio == result.kpis.time_rat &&
      v.peakElectricity == result.kpis.pele_tot && v.peakGas == result.kpis.pgas_tot &&
      v.peakDistrictHeating == result.kpis.pdih_tot &&
      v.forecastParameters == ToJsonObject(result.forecastParameters) &&
      (v.scenario.JObj? || v.scenario.JArr?) &&
      ((result.scenario.JObj? || result.scenario.JArr?) ==> v.scenario == result.scenario) &&
      (!result.scenario.JObj? && !result.scenario.JArr? ==> v.scenario == JObj([]))
    ensures d.Success? ==> var v := d.value;
      v.timePeriod == StringAt(result.scenario, "timePeriod").GetOr("") &&
      v.electricityPrice == StringAt(result.scenario, "electricityPrice").GetOr("") &&
      v.weatherForecastUncertainty == StringAt(result.scenario, "weatherForecastUncertainty").GetOr("")
  {
    if result.scenario.JNull? then Failure("Cannot read properties of null (reading 'timePeriod')")
    else
      var k := result.kpis;
      Success(ResultDocument(
        result.uid, false, result.dateRun, result.boptestVersion, result.isShared,
        result.tags.GetOr([]),
        k.tdis_tot, k.ener_tot, k.cost_tot, k.emis_tot, k.idis_tot, k.time_rat, k.pele_tot,
        k.pgas_tot, k.pdih_tot,
        StringAt(result.scenario, "timePeriod").GetOr(""), result.controlStep,
        StringAt(result.scenario, "electricityPrice").GetOr(""),
        StringAt(result.scenario, "weatherForecastUncertainty").GetOr(""),
        ToJsonObject(result.forecastParameters), ToJsonObject(Some(result.scenario)),
        account.id, buildingTypeUid, buildingTypeName))
  }

  /** A stored submission reads back as the submitted KPIs, owned by the
      sanitised submitter and filed under the given building type. */
  lemma BuiltDocumentReadsBack(result: Submission, account: Account, uid: string, name: string, numericId: int)
    requires uid != "" && name != ""
    ensures var b := BuildResultDocument(result, account, uid, name);
      b.Success? ==>
      var r := ToResult(ResultRecord(numericId, b.value), account);
      r.id == numericId && r.uid == result.uid && !r.deleted &&
      r.thermalDiscomfort == result.kpis.tdis_tot && r.energyUse == result.kpis.ener_tot &&
      r.cost == result.kpis.cost_tot && r.emissions == result.kpis.emis_tot &&
      r.iaq == result.kpis.idis_tot && r.timeRatio == result.kpis.time_rat &&
      r.peakElectricity == result.kpis.pele_tot && r.peakGas == result.kpis.pgas_tot &&
      r.peakDistrictHeating == result.kpis.pdih_tot &&
      r.buildingType == BuildingTypeRef(uid, name) &&
      r.account == SanitizeAccountForResult(account)
  {
  }

  // ---------------------------------------------------------------------
  // The facet values of a submitted scenario

  /** `Object.keys` paired with the values: an object's entries, an array's
      items under their index, nothing for any other value. */
  function ObjectEntries(value: Json): (r: seq<(string, Json)>)
    ensures value.JObj? ==> r == value.entries
    ensures value.JArr? ==> (|r| == |value.items| &&
      forall i :: 0 <= i < |r| ==> r[i] == (NatToString(i), value.items[i]))
    ensures !value.JObj? && !value.JArr? ==> r == []
  {
    match value
    case JObj(entries) => entries
    case JArr(items) => IndexedItems(items, |items|)
    case _ => []
  }

  function IndexedItems(items: seq<Json>, n: nat): (r: seq<(string, Json)>)
    requires n <= |items|
    ensures |r| == n
    ensures forall i :: 0 <= i < n ==> r[i] == (NatToString(i), items[i])
  {
    if n == 0 then [] else IndexedItems(items, n - 1) + [(NatToString(n - 1), items[n - 1])]
  }

  lemma NatToStringInjective(a: nat, b: nat)
    requires NatToString(a) == NatToString(b)
    ensures a == b
  {
    NatToStringValue(a);
    NatToStringValue(b);
  }

  /** `String(value)`: a string stays itself; other values go through
      `render`, the engine's conversion. */
  function Text(value: Json, render: Json -> string): string {
    if value.JStr? then value.s else render(value)
  }

  function NonNullSelector(): Json -> bool {
    (v: Json) => !v.JNull?
  }

  function Texts(values: seq<Json>, render: Json -> string): (r: seq<string>)
    ensures |r| == |values|
    ensures forall i :: 0 <= i < |r| ==> r[i] == Text(values[i], render)
  {
    if values == [] then [] else [Text(values[0], render)] + Texts(values[1..], render)
  }

  /** The facet values of one scenario value: an array gives its items that
      are not null, as strings, a single value gives a one-element list. */
  function Normalised(value: Json, render: Json -> string): (r: seq<string>)
    ensures !value.JArr? ==> r == [Text(value, render)]
    ensures value.JArr? ==> |r| <= |value.items|
    ensures value.JArr? ==> forall i :: 0 <= i < |r| ==>
      exists j :: 0 <= j < |value.items| && !value.items[j].JNull? && r[i] == Text(value.items[j], render)
  {
    if value.JArr? then
      var kept := Filter(value.items, NonNullSelector());
      var r := Texts(kept, render);
      forall i | 0 <= i < |r|
        ensures exists j :: 0 <= j < |value.items| && !value.items[j].JNull? && r[i] == Text(value.items[j], render)
      {
        assert kept[i] in kept;
        var j :| 0 <= j < |value.items| && value.items[j] == kept[i];
      }
      r
    else [Text(value, render)]
  }

  /** An array keeps every item that is not null, in order: the empty array
      gives no values, and one item more adds its text at the end unless it
      is null. */
  lemma {:induction false} NormalisedArray(items: seq<Json>, v: Json, render: Json -> string)
    ensures Normalised(JArr([]), render) == []
    ensures Normalised(JArr(items + [v]), render) ==
      Normalised(JArr(items), render) + (if v.JNull? then [] else [Text(v, render)])
  {
    var keep := NonNullSelector();
    FilterConcat(items, [v], keep);
    assert Filter([v], keep) == if v.JNull? then [] else [v] by {
      assert [v][1..] == [];
    }
    TextsConcat(Filter(items, keep), Filter([v], keep), render);
  }

  lemma {:induction false} TextsConcat(a: seq<Json>, b: seq<Json>, render: Json -> string)
    ensures Texts(a + b, render) == Texts(a, render) + Texts(b, render)
  {
    var l, la, lb := Texts(a + b, render), Texts(a, render), Texts(b, render);
    forall i | 0 <= i < |l| ensures l[i] == (la + lb)[i] {
      if i < |a| { assert (a + b)[i] == a[i]; } else { assert (a + b)[i] == b[i - |a|]; }
    }
  }

  /** The scenario values as `scenarioValues` ends up holding them: null
      values are left out, the others normalised, in key order. */
  function NormalisedEntries(entries: seq<(string, Json)>, render: Json -> string): seq<(string, seq<string>)> {
    if entries == [] then []
    else
      var rest := NormalisedEntries(entries[..|entries| - 1], render);
      var (k, v) := entries[|entries| - 1];
      if v.JNull? then rest else rest + [(k, Normalised(v, render))]
  }

  lemma {:induction false} NormalisedKeys(entries: seq<(string, Json)>, render: Json -> string, k: string)
    requires k in Keys(NormalisedEntries(entries, render))
    ensures k in Keys(entries)
  {
    if entries != [] {
      var init := entries[..|entries| - 1];
      var rest := NormalisedEntries(init, render);
      var (key, v) := entries[|entries| - 1];
      KeysAppend(init, entries[|entries| - 1]);
      assert init + [entries[|entries| - 1]] == entries;
      if k in Keys(rest) {
        NormalisedKeys(init, render, k);
      } else {
        KeysAppend(rest, (key, Normalised(v, render)));
      }
    }
  }

  /** The normalised value of a key that occurs once. */
  function Expected(entries: seq<(string, Json)>, render: Json -> string, k: string): Option<seq<string>> {
    var v := Get(entries, k);
    if v.None? || v.value.JNull? then None else Some(Normalised(v.value, render))
  }

  /** One step of the normalisation: the last key is new, and the entry is
      kept unless its value is null. */
  lemma NormalisedStep(entries: seq<(string, Json)>, render: Json -> string, i: nat)
    requires DistinctKeys(entries) && i < |entries|
    ensures entries[i].0 !in Keys(NormalisedEntries(entries[..i], render))
    ensures NormalisedEntries(entries[..i + 1], render) ==
      (if entries[i].1.JNull? then NormalisedEntries(entries[..i], render)
       else NormalisedEntries(entries[..i], render) + [(entries[i].0, Normalised(entries[i].1, render))])
  {
    assert entries[..i + 1][..i] == entries[..i];
    var key := entries[i].0;
    forall j | 0 <= j < i ensures Keys(entries[..i])[j] != key {
      assert Keys(entries[..i])[j] == entries[j].0;
    }
    forall k | k in Keys(NormalisedEntries(entries[..i], render)) ensures k in Keys(entries[..i]) {
      NormalisedKeys(entries[..i], render, k);
    }
  }

  /** Reading a key of the normalised scenario: nothing for a missing or
      null value, the normalised value otherwise. */
  lemma {:induction false} NormalisedGet(entries: seq<(string, Json)>, render: Json -> string, k: string)
    requires DistinctKeys(entries)
    ensures Get(NormalisedEntries(entries, render), k) == Expected(entries, render, k)
  {
    if entries != [] {
      var n := |entries| - 1;
      var init := entries[..n];
      assert DistinctKeys(init);
      if entries[n].0 == k {
        NormalisedGetLast(entries, render);
      } else {
        NormalisedGet(init, render, k);
        NormalisedGetOther(entries, render, k);
      }
    }
  }

  lemma NormalisedGetLast(entries: seq<(string, Json)>, render: Json -> string)
    requires DistinctKeys(entries) && entries != []
    ensures var n := |entries| - 1;
      Get(NormalisedEntries(entries, render), entries[n].0) == Expected(entries, render, entries[n].0)
  {
    var n := |entries| - 1;
    var (k, v) := entries[n];
    var rest := NormalisedEntries(entries[..n], render);
    assert entries[..n + 1] == entries;
    NormalisedStep(entries, render, n);
    forall j | 0 <= j < n ensures entries[j].0 != k {
    }
    GetAt(entries, k, n);
    if !v.JNull? {
      forall j | 0 <= j < |rest| ensures rest[j].0 != k {
        assert Keys(rest)[j] == rest[j].0;
      }
      GetAt(rest + [(k, Normalised(v, render))], k, |rest|);
    }
  }

  lemma NormalisedGetOther(entries: seq<(string, Json)>, render: Json -> string, k: string)
    requires entries != [] && entries[|entries| - 1].0 != k
    requires Get(NormalisedEntries(entries[..|entries| - 1], render), k) == Expected(entries[..|entries| - 1], render, k)
    ensures Get(NormalisedEntries(entries, render), k) == Expected(entries, render, k)
  {
    var n := |entries| - 1;
    var (key, v) := entries[n];
    var rest := NormalisedEntries(entries[..n], render);
    assert Expected(entries, render, k) == Expected(entries[..n], render, k) by {
      assert entries[..n] + [entries[n]] == entries;
      GetSkipsLast(entries[..n], entries[n], k);
    }
    assert Get(NormalisedEntries(entries, render), k) == Get(rest, k) by {
      if !v.JNull? {
        assert NormalisedEntries(entries, render) == rest + [(key, Normalised(v, render))];
        GetSkipsLast(rest, (key, Normalised(v, render)), k);
      }
    }
  }

  /** Appending an entry with another key does not change a lookup. */
  lemma {:induction false} GetSkipsLast<V>(entries: seq<(string, V)>, e: (string, V), k: string)
    requires e.0 != k
    ensures Get(entries + [e], k) == Get(entries, k)
  {
    if entries != [] {
      assert (entries + [e])[1..] == entries[1..] + [e];
      GetSkipsLast(entries[1..], e, k);
    } else {
      assert ([e])[1..] == [];
    }
  }

  /** A JavaScript object has each key once. */
  predicate WellFormedObject(value: Json) {
    value.JObj? ==> DistinctKeys(value.entries)
  }

  /** The `scenarioValues` loop of `createResultAndAssociatedModels`:
      every key of the scenario object with a value that is not null gets
      its facet values. */
  method ScenarioValues(scenario: Json, render: Json -> string) returns (values: seq<(string, seq<string>)>)
    requires WellFormedObject(scenario)
    ensures values == NormalisedEntries(ObjectEntries(scenario), render)
    ensures DistinctKeys(ObjectEntries(scenario))
  {
    var entries := ObjectEntries(scenario);
    assert DistinctKeys(entries) by {
      if scenario.JArr? {
        forall i, j | 0 <= i < j < |entries| ensures entries[i].0 != entries[j].0 {
          if entries[i].0 == entries[j].0 {
            NatToStringInjective(i, j);
          }
        }
      }
    }
    values := [];
    var i := 0;
    while i < |entries|
      invariant 0 <= i <= |entries|
      invariant values == NormalisedEntries(entries[..i], render)
    {
      NormalisedStep(entries, render, i);
      var (key, value) := entries[i];
      if !value.JNull? {
        values := Put(values, key, Normalised(value, render));
      }
      i := i + 1;
    }
    assert entries[..|entries|] == entries;
  }

  // ---------------------------------------------------------------------
  // Sharing a result

  /** `findResultById`: the position of the first record with that id. */
  function IndexById(records: seq<ResultRecord>, id: int): (r: Option<nat>)
    ensures r.None? <==> forall i :: 0 <= i < |records| ==> records[i].numericId != id
    ensures r.Some? ==> r.value < |records| && records[r.value].numericId == id
    ensures r.Some? ==> forall i :: 0 <= i < r.value ==> records[i].numericId != id
  {
    if records == [] then None
    else if records[0].numericId == id then Some(0)
    else
      var r := IndexById(records[1..], id);
      assert forall i :: 0 < i < |records| ==> records[i] == records[1..][i - 1];
      if r.None? then None else Some(r.value + 1)
  }

  /** The record with its share flag set; nothing else differs. */
  function WithShared(record: ResultRecord, share: bool): (r: ResultRecord)
    ensures r.data.isShared == share
    ensures r.data.(isShared := record.data.isShared) == record.data && r.numericId == record.numericId
  {
    record.(data := record.data.(isShared := share))
  }

  /** Once the owner shares a result that is not deleted, it is visible. */
  lemma SharingMakesVisible(record: ResultRecord, accounts: map<int, Account>)
    requires !record.data.deleted && record.data.accountId in accounts
    ensures Visible(WithShared(record, true), accounts)
  {
  }

  /** The results table as far as `toggleShared` changes it. */
  class ResultTable {
    var records: seq<ResultRecord>

    constructor(records: seq<ResultRecord>)
      ensures this.records == records
    {
      this.records := records;
    }

    /** `toggleShared`: only the owner of an existing result may set its
        share flag, and only that flag changes. */
    method ToggleShared(id: int, share: bool, sessionId: int) returns (r: Outcome<()>)
      modifies this
      ensures var i := IndexById(old(records), id);
        (i.None? ==> r == Failure("Result not found") && records == old(records)) &&
        (i.Some? && old(records)[i.value].data.accountId != sessionId ==>
           r == Failure("Not authorized") && records == old(records)) &&
        (i.Some? && old(records)[i.value].data.accountId == sessionId ==>
           r == Success(()) && records == old(records)[i.value := WithShared(old(records)[i.value], share)])
    {
      var i := IndexById(records, id);
      if i.None? {
        return Failure("Result not found");
      }
      var record := records[i.value];
      if record.data.accountId != sessionId {
        return Failure("Not authorized");
      }
      records := records[i.value := WithShared(record, share)];
      r := Success(());
    }
  }
}
