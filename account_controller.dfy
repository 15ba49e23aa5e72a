/** The account controller (server/controllers/account.ts) over an
    in-memory accounts table that keeps the unique columns of the account
    schema (server/models/Account.ts). */
module AccountController {
  import opened Wrappers
  import opened Strings
  import opened Interfaces
  import opened Sequences
  import opened DocumentStore
  import ResultController

  /** `AccountData`: an account without its results; the table assigns the
      id. */
  datatype AccountData = AccountData(
    hashedIdentifier: string,
    displayName: string,
    apiKey: string,
    apiKeySalt: string,
    shareAllResults: Option<bool>,
    oauthProvider: string)

  /** The message the database gives when a unique column would repeat. */
  const DuplicateKey := "duplicate key value violates unique constraint"

  function WithId(data: AccountData, id: int): (a: Account)
    ensures DataOf(a) == data && a.id == id && a.results == []
  {
    Account(id, data.hashedIdentifier, data.displayName, data.apiKey, data.apiKeySalt,
            [], data.shareAllResults, data.oauthProvider)
  }

  function DataOf(a: Account): AccountData {
    AccountData(a.hashedIdentifier, a.displayName, a.apiKey, a.apiKeySalt, a.shareAllResults, a.oauthProvider)
  }

  // ---------------------------------------------------------------------
  // The accounts table

  /** Two accounts share a value in one of the unique columns. */
  predicate Clashes(a: Account, b: Account) {
    a.hashedIdentifier == b.hashedIdentifier || a.apiKey == b.apiKey || a.apiKeySalt == b.apiKeySalt
  }

  /** The primary key and the three unique columns hold distinct values. */
  predicate UniqueColumns(rows: seq<Account>) {
    forall i, j :: 0 <= i < j < |rows| ==> rows[i].id != rows[j].id && !Clashes(rows[i], rows[j])
  }

  predicate IdsBelow(rows: seq<Account>, bound: int) {
    forall i :: 0 <= i < |rows| ==> rows[i].id < bound
  }

  /** A clash of `a` with some row other than the one at `skip`. */
  predicate ClashesWithRow(rows: seq<Account>, a: Account, skip: int) {
    exists j :: 0 <= j < |rows| && j != skip && Clashes(rows[j], a)
  }

  /** `createAccount`, the repository's `save` of new data: the row gets
      the next generated id unless a unique column would repeat. */
  function PersistRows(rows: seq<Account>, nextId: int, data: AccountData): (r: (seq<Account>, int, Outcome<Account>))
    ensures ClashesWithRow(rows, WithId(data, nextId), -1) ==> r == (rows, nextId, Failure(DuplicateKey))
    ensures !ClashesWithRow(rows, WithId(data, nextId), -1) ==>
      r == (rows + [WithId(data, nextId)], nextId + 1, Success(WithId(data, nextId)))
  {
    var a := WithId(data, nextId);
    if ClashesWithRow(rows, a, -1) then (rows, nextId, Failure(DuplicateKey))
    else (rows + [a], nextId + 1, Success(a))
  }

  lemma PersistKeepsUnique(rows: seq<Account>, nextId: int, data: AccountData)
    requires UniqueColumns(rows) && IdsBelow(rows, nextId)
    ensures UniqueColumns(PersistRows(rows, nextId, data).0)
    ensures IdsBelow(PersistRows(rows, nextId, data).0, PersistRows(rows, nextId, data).1)
  {
    var a := WithId(data, nextId);
    if !ClashesWithRow(rows, a, -1) {
      var rows' := rows + [a];
      forall i, j | 0 <= i < j < |rows'| ensures rows'[i].id != rows'[j].id && !Clashes(rows'[i], rows'[j]) {
        if j == |rows| {
          assert rows'[i] == rows[i];
          assert !Clashes(rows[i], a);
        }
      }
    }
  }

  /** `replaceAccount`: the row with the same id is overwritten, unless a
      unique column would then repeat. */
  function ReplaceRows(rows: seq<Account>, account: Account): (r: (seq<Account>, Outcome<Account>))
    ensures Find(rows, ById(account.id)).None? ==>
      r == (rows, Failure("Account with id " + IntToString(account.id) + " not found"))
    ensures Find(rows, ById(account.id)).Some? && ClashesWithRow(rows, account, Find(rows, ById(account.id)).value) ==>
      r == (rows, Failure(DuplicateKey))
    ensures Find(rows, ById(account.id)).Some? && !ClashesWithRow(rows, account, Find(rows, ById(account.id)).value) ==>
      r == (rows[Find(rows, ById(account.id)).value := account], Success(account))
  {
    match Find(rows, ById(account.id))
    case None => (rows, Failure("Account with id " + IntToString(account.id) + " not found"))
    case Some(i) =>
      if ClashesWithRow(rows, account, i) then (rows, Failure(DuplicateKey))
      else (rows[i := account], Success(account))
  }

  lemma ReplaceKeepsUnique(rows: seq<Account>, nextId: int, account: Account)
    requires UniqueColumns(rows) && IdsBelow(rows, nextId)
    ensures UniqueColumns(ReplaceRows(rows, account).0)
    ensures IdsBelow(ReplaceRows(rows, account).0, nextId)
  {
    match Find(rows, ById(account.id))
    case None =>
    case Some(k) =>
      if !ClashesWithRow(rows, account, k) {
        var rows' := rows[k := account];
        forall i, j | 0 <= i < j < |rows'| ensures rows'[i].id != rows'[j].id && !Clashes(rows'[i], rows'[j]) {
          if i == k {
            assert !Clashes(rows[j], account);
            assert rows[k].id == account.id;
          } else if j == k {
            assert !Clashes(rows[i], account);
            assert rows[k].id == account.id;
          }
        }
      }
  }

  class AccountStore {
    var rows: seq<Account>
    var nextId: int

    ghost predicate Valid()
      reads this
    {
      UniqueColumns(rows) && IdsBelow(rows, nextId)
    }

    constructor()
      ensures rows == [] && nextId == 1 && Valid()
    {
      rows := [];
      nextId := 1;
    }

    method Persist(data: AccountData) returns (r: Outcome<Account>)
      requires Valid()
      modifies this
      ensures Valid()
      ensures (rows, nextId, r) == PersistRows(old(rows), old(nextId), data)
    {
      PersistKeepsUnique(rows, nextId, data);
      var result := PersistRows(rows, nextId, data);
      rows, nextId, r := result.0, result.1, result.2;
    }

    method Replace(account: Account) returns (r: Outcome<Account>)
      requires Valid()
      modifies this
      ensures Valid()
      ensures (rows, r) == ReplaceRows(old(rows), account) && nextId == old(nextId)
    {
      ReplaceKeepsUnique(rows, nextId, account);
      var result := ReplaceRows(rows, account);
      rows, r := result.0, result.1;
    }
  }

  // ---------------------------------------------------------------------
  // Finders

  /** The three finders the controller uses. */
  datatype Key = ById(id: int) | ByHashedIdentifier(hashedIdentifier: string) | ByApiKey(apiKey: string)

  predicate Matches(a: Account, key: Key) {
    match key
    case ById(id) => a.id == id
    case ByHashedIdentifier(h) => a.hashedIdentifier == h
    case ByApiKey(k) => a.apiKey == k
  }

  /** The index of the first row that matches the key. */
  function Find(rows: seq<Account>, key: Key): (r: Option<nat>)
    ensures r.None? <==> forall i :: 0 <= i < |rows| ==> !Matches(rows[i], key)
    ensures r.Some? ==> r.value < |rows| && Matches(rows[r.value], key)
    ensures r.Some? ==> forall j :: 0 <= j < r.value ==> !Matches(rows[j], key)
  {
    FindFrom(rows, key, 0)
  }

  function FindFrom(rows: seq<Account>, key: Key, start: nat): (r: Option<nat>)
    requires start <= |rows|
    requires forall j :: 0 <= j < start ==> !Matches(rows[j], key)
    ensures r.None? <==> forall i :: 0 <= i < |rows| ==> !Matches(rows[i], key)
    ensures r.Some? ==> r.value < |rows| && Matches(rows[r.value], key)
    ensures r.Some? ==> forall j :: 0 <= j < r.value ==> !Matches(rows[j], key)
    decreases |rows| - start
  {
    if start == |rows| then None
    else if Matches(rows[start], key) then Some(start)
    else FindFrom(rows, key, start + 1)
  }

  /** In a table whose unique columns are distinct, each key finds the one
      row that has it. */
  lemma FindUnique(rows: seq<Account>, key: Key, i: nat)
    requires UniqueColumns(rows) && i < |rows| && Matches(rows[i], key)
    ensures Find(rows, key) == Some(i)
  {
    var r := Find(rows, key);
    if r.value < i {
      assert false;
    }
  }

  // ---------------------------------------------------------------------
  // Controller operations

  /** `sanitizeAccount`: the credentials are blanked and the results
      emptied; every other field is kept. */
  function SanitizeAccount(account: Account): (r: Account)
    ensures r.apiKey == "" && r.apiKeySalt == "" && r.results == []
    ensures r.id == account.id && r.hashedIdentifier == account.hashedIdentifier
    ensures r.displayName == account.displayName && r.shareAllResults == account.shareAllResults
    ensures r.oauthProvider == account.oauthProvider
  {
    account.(apiKey := "", apiKeySalt := "", results := [])
  }

  /** The result controller's sanitiser is the same function. */
  lemma SanitizersAgree(account: Account)
    ensures SanitizeAccount(account) == ResultController.SanitizeAccountForResult(account)
  {
  }

  /** `getAccountById`: a missing id is an error; otherwise the sanitised
      account. */
  function GetAccountById(rows: seq<Account>, id: int): (r: Outcome<Account>)
    ensures r.Failure? <==> forall i :: 0 <= i < |rows| ==> !Matches(rows[i], ById(id))
    ensures r.Failure? ==> r.error == "Account with id " + IntToString(id) + " not found"
    ensures r.Success? ==> exists i :: 0 <= i < |rows| && Matches(rows[i], ById(id)) && r.value == SanitizeAccount(rows[i])
  {
    match Find(rows, ById(id))
    case None => Failure("Account with id " + IntToString(id) + " not found")
    case Some(i) => Success(SanitizeAccount(rows[i]))
  }

  /** `getAccountByHashedIdentifier`. */
  function GetAccountByHashedIdentifier(rows: seq<Account>, hashedIdentifier: string): (r: Outcome<Account>)
    ensures r.Failure? <==> forall i :: 0 <= i < |rows| ==> !Matches(rows[i], ByHashedIdentifier(hashedIdentifier))
    ensures r.Failure? ==> r.error == "Account with hashed identifier " + hashedIdentifier + " not found"
    ensures r.Success? ==>
      exists i :: 0 <= i < |rows| && Matches(rows[i], ByHashedIdentifier(hashedIdentifier)) && r.value == SanitizeAccount(rows[i])
  {
    match Find(rows, ByHashedIdentifier(hashedIdentifier))
    case None => Failure("Account with hashed identifier " + hashedIdentifier + " not found")
    case Some(i) => Success(SanitizeAccount(rows[i]))
  }

  /** `getAccountByAPIKey`: the account is returned unsanitised, credentials
      and results included. */
  function GetAccountByApiKey(rows: seq<Account>, key: string): (r: Outcome<Account>)
    ensures r.Failure? <==> forall i :: 0 <= i < |rows| ==> !Matches(rows[i], ByApiKey(key))
    ensures r.Failure? ==> r.error == "Account with API key " + key + " not found"
    ensures r.Success? ==> r.value in rows && r.value.apiKey == key
  {
    match Find(rows, ByApiKey(key))
    case None => Failure("Account with API key " + key + " not found")
    case Some(i) => Success(rows[i])
  }

  /** `getAPIKeyByHashedIdentifier`: the key is kept, the results are
      dropped. */
  function GetApiKeyByHashedIdentifier(rows: seq<Account>, hashedIdentifier: string): (r: Outcome<Account>)
    ensures r.Failure? <==> forall i :: 0 <= i < |rows| ==> !Matches(rows[i], ByHashedIdentifier(hashedIdentifier))
    ensures r.Failure? ==> r.error == "Account with hashed identifier " + hashedIdentifier + " not found"
    ensures r.Success? ==>
      exists i :: 0 <= i < |rows| && Matches(rows[i], ByHashedIdentifier(hashedIdentifier)) && r.value == rows[i].(results := [])
  {
    match Find(rows, ByHashedIdentifier(hashedIdentifier))
    case None => Failure("Account with hashed identifier " + hashedIdentifier + " not found")
    case Some(i) => Success(rows[i].(results := []))
  }

  /** Each lookup answers with the stored account, in the view it promises:
      by id and by identifier sanitised, by API key whole, and the key
      lookup with the credentials kept and the results dropped. */
  lemma LookupsFindStoredAccount(rows: seq<Account>, i: nat)
    requires UniqueColumns(rows) && i < |rows|
    ensures GetAccountById(rows, rows[i].id) == Success(SanitizeAccount(rows[i]))
    ensures GetAccountByHashedIdentifier(rows, rows[i].hashedIdentifier) == Success(SanitizeAccount(rows[i]))
    ensures GetAccountByApiKey(rows, rows[i].apiKey) == Success(rows[i])
    ensures GetApiKeyByHashedIdentifier(rows, rows[i].hashedIdentifier) == Success(rows[i].(results := []))
    ensures GetApiKeyByHashedIdentifier(rows, rows[i].hashedIdentifier).value.apiKey == rows[i].apiKey
  {
    FindUnique(rows, ById(rows[i].id), i);
    FindUnique(rows, ByHashedIdentifier(rows[i].hashedIdentifier), i);
    FindUnique(rows, ByApiKey(rows[i].apiKey), i);
  }

  // ---------------------------------------------------------------------
  // createAccounts

  /** What `createAccounts` leaves behind: the table after persisting each
      account in turn, and the accounts that were persisted. */
  function CreateAll(rows: seq<Account>, nextId: int, accounts: seq<AccountData>): (seq<Account>, int, seq<Account>)
    decreases |accounts|
  {
    if accounts == [] then (rows, nextId, [])
    else
      var step := PersistRows(rows, nextId, accounts[0]);
      var rest := CreateAll(step.0, step.1, accounts[1..]);
      (rest.0, rest.1, (if step.2.Success? then [step.2.value] else []) + rest.2)
  }

  /** `xs` is `ys` with some elements left out. */
  predicate IsSubsequence<T(==)>(xs: seq<T>, ys: seq<T>)
    decreases |ys|
  {
    if xs == [] then true
    else if ys == [] then false
    else (xs[0] == ys[0] && IsSubsequence(xs[1..], ys[1..])) || IsSubsequence(xs, ys[1..])
  }

  lemma {:induction false} SubsequenceNoLonger<T>(xs: seq<T>, ys: seq<T>)
    requires IsSubsequence(xs, ys)
    ensures |xs| <= |ys|
    decreases |ys|
  {
    if xs != [] {
      if xs[0] == ys[0] && IsSubsequence(xs[1..], ys[1..]) {
        SubsequenceNoLonger(xs[1..], ys[1..]);
      } else {
        SubsequenceNoLonger(xs, ys[1..]);
      }
    }
  }

  function DataOfAll(accounts: seq<Account>): (r: seq<AccountData>)
    ensures |r| == |accounts| && forall i :: 0 <= i < |accounts| ==> r[i] == DataOf(accounts[i])
  {
    if accounts == [] then [] else [DataOf(accounts[0])] + DataOfAll(accounts[1..])
  }

  /** The created accounts carry the input data in input order, some
      skipped, so there are never more of them than inputs. */
  lemma {:induction false} CreatedInInputOrder(rows: seq<Account>, nextId: int, accounts: seq<AccountData>)
    ensures IsSubsequence(DataOfAll(CreateAll(rows, nextId, accounts).2), accounts)
    ensures |CreateAll(rows, nextId, accounts).2| <= |accounts|
    decreases |accounts|
  {
    var created := CreateAll(rows, nextId, accounts).2;
    if accounts != [] {
      var step := PersistRows(rows, nextId, accounts[0]);
      CreatedInInputOrder(step.0, step.1, accounts[1..]);
      var rest := CreateAll(step.0, step.1, accounts[1..]).2;
      if step.2.Success? {
        assert created == [step.2.value] + rest;
        assert DataOfAll(created) == [accounts[0]] + DataOfAll(rest);
        assert DataOfAll(created)[1..] == DataOfAll(rest);
      } else {
        assert created == rest;
      }
    }
    SubsequenceNoLonger(DataOfAll(created), accounts);
  }

  /** Every created account is in the table afterwards, and the table keeps
      its unique columns. */
  lemma {:induction false} CreatedAreStored(rows: seq<Account>, nextId: int, accounts: seq<AccountData>)
    requires UniqueColumns(rows) && IdsBelow(rows, nextId)
    ensures UniqueColumns(CreateAll(rows, nextId, accounts).0)
    ensures IdsBelow(CreateAll(rows, nextId, accounts).0, CreateAll(rows, nextId, accounts).1)
    ensures forall a :: a in CreateAll(rows, nextId, accounts).2 ==> a in CreateAll(rows, nextId, accounts).0
    ensures forall a :: a in rows ==> a in CreateAll(rows, nextId, accounts).0
    decreases |accounts|
  {
    if accounts != [] {
      var step := PersistRows(rows, nextId, accounts[0]);
      PersistKeepsUnique(rows, nextId, accounts[0]);
      CreatedAreStored(step.0, step.1, accounts[1..]);
    }
  }

  /** Accounts whose unique columns are new to the table and to each other
      are all created. */
  lemma {:induction false} FreshAccountsAllCreated(rows: seq<Account>, nextId: int, accounts: seq<AccountData>)
    requires forall i, k :: 0 <= i < |rows| && 0 <= k < |accounts| ==> !Clashes(rows[i], WithId(accounts[k], 0))
    requires forall k, l :: 0 <= k < l < |accounts| ==> !Clashes(WithId(accounts[k], 0), WithId(accounts[l], 0))
    ensures DataOfAll(CreateAll(rows, nextId, accounts).2) == accounts
    decreases |accounts|
  {
    if accounts != [] {
      var a := WithId(accounts[0], nextId);
      assert !ClashesWithRow(rows, a, -1) by {
        forall j | 0 <= j < |rows| ensures !Clashes(rows[j], a) {
          assert !Clashes(rows[j], WithId(accounts[0], 0));
        }
      }
      var step := PersistRows(rows, nextId, accounts[0]);
      assert step == (rows + [a], nextId + 1, Success(a));
      forall i, k | 0 <= i < |step.0| && 0 <= k < |accounts[1..]| ensures !Clashes(step.0[i], WithId(accounts[1..][k], 0)) {
        if i == |rows| {
          assert !Clashes(WithId(accounts[0], 0), WithId(accounts[k + 1], 0));
        } else {
          assert step.0[i] == rows[i];
        }
      }
      FreshAccountsAllCreated(step.0, step.1, accounts[1..]);
      var rest := CreateAll(step.0, step.1, accounts[1..]).2;
      assert CreateAll(rows, nextId, accounts).2 == [a] + rest;
      assert DataOfAll([a] + rest) == [accounts[0]] + DataOfAll(rest);
    }
  }

  /** `createAccounts`: persists each account in turn and collects the ones
      the table accepted; a rejected one is skipped. */
  method CreateAccounts(store: AccountStore, accounts: seq<AccountData>) returns (created: seq<Account>)
    requires store.Valid()
    modifies store
    ensures store.Valid()
    ensures (store.rows, store.nextId, created) == CreateAll(old(store.rows), old(store.nextId), accounts)
  {
    created := [];
    var i := 0;
    assert accounts[0..] == accounts;
    assert [] + CreateAll(store.rows, store.nextId, accounts).2 == CreateAll(store.rows, store.nextId, accounts).2;
    while i < |accounts|
      invariant 0 <= i <= |accounts| && store.Valid()
      invariant
        var rest := CreateAll(store.rows, store.nextId, accounts[i..]);
        (rest.0, rest.1, created + rest.2) == CreateAll(old(store.rows), old(store.nextId), accounts)
    {
      assert accounts[i..][0] == accounts[i] && accounts[i..][1..] == accounts[i + 1..];
      ghost var remaining := CreateAll(store.rows, store.nextId, accounts[i..]);
      var outcome := store.Persist(accounts[i]);
      ghost var rest := CreateAll(store.rows, store.nextId, accounts[i + 1..]);
      assert remaining == (rest.0, rest.1, (if outcome.Success? then [outcome.value] else []) + rest.2);
      if outcome.Success? {
        assert created + ([outcome.value] + rest.2) == (created + [outcome.value]) + rest.2;
        created := created + [outcome.value];
      } else {
        assert [] + rest.2 == rest.2;
      }
      i := i + 1;
    }
    assert accounts[i..] == [];
    assert created + [] == created;
  }

  // ---------------------------------------------------------------------
  // Credentials

  function IsNotDash(c: char): bool { c != '-' }

  /** `.replace(/-/g, '')`. */
  function RemoveDashes(s: string): (r: string)
    ensures '-' !in r
    ensures forall c :: c != '-' ==> (c in r <==> c in s)
  {
    Filter(s, IsNotDash)
  }

  /** A UUID text with its dashes removed is the 32 hex digits of its 16
      bytes. */
  lemma RemoveDashesOfUuid(bytes: seq<bv8>)
    requires |bytes| == 16
    ensures RemoveDashes(UuidText(bytes)) == Hex(bytes)
    ensures |RemoveDashes(UuidText(bytes))| == 32
  {
    var hex := Hex(bytes);
    var p1, p2, p3, p4, p5 := hex[..8], hex[8..12], hex[12..16], hex[16..20], hex[20..];
    var q2 := p1 + "-" + p2;
    var q3 := q2 + "-" + p3;
    var q4 := q3 + "-" + p4;
    assert UuidText(bytes) == q4 + "-" + p5;
    assert RemoveDashes(q2) == p1 + p2 by {
      HexSliceKept(bytes, 0, 8);
      HexSliceKept(bytes, 8, 12);
      RemoveDashesJoin(p1, p2);
    }
    assert RemoveDashes(q3) == p1 + p2 + p3 by {
      HexSliceKept(bytes, 12, 16);
      RemoveDashesJoin(q2, p3);
    }
    assert RemoveDashes(q4) == p1 + p2 + p3 + p4 by {
      HexSliceKept(bytes, 16, 20);
      RemoveDashesJoin(q3, p4);
    }
    assert RemoveDashes(q4 + "-" + p5) == p1 + p2 + p3 + p4 + p5 by {
      HexSliceKept(bytes, 20, 32);
      assert p5 == hex[20..32];
      RemoveDashesJoin(q4, p5);
    }
    assert p1 + p2 + p3 + p4 + p5 == hex;
  }

  /** Removing dashes around a joining dash. */
  lemma RemoveDashesJoin(a: string, b: string)
    ensures RemoveDashes(a + "-" + b) == RemoveDashes(a) + RemoveDashes(b)
  {
    assert Filter("-", IsNotDash) == [];
    FilterConcat(a, "-", IsNotDash);
    FilterConcat(a + "-", b, IsNotDash);
  }

  lemma HexSliceKept(bytes: seq<bv8>, lo: nat, hi: nat)
    requires lo <= hi <= |Hex(bytes)|
    ensures RemoveDashes(Hex(bytes)[lo..hi]) == Hex(bytes)[lo..hi]
  {
    HexHasNoDash(bytes);
    var part := Hex(bytes)[lo..hi];
    assert forall i :: 0 <= i < |part| ==> part[i] == Hex(bytes)[lo + i];
    FilterAllKept(part, IsNotDash);
  }

  lemma HexHasNoDash(bytes: seq<bv8>)
    ensures forall i :: 0 <= i < |Hex(bytes)| ==> IsNotDash(Hex(bytes)[i])
  {
    HexIsLower(bytes);
  }


  /** `createApiKey`: a random UUID without its dashes when `randomUUID`
      exists, otherwise the hex text of random bytes. */
  function CreateApiKey(uuid: Option<string>, randomBytes: seq<bv8>): (r: string)
    ensures uuid.Some? ==> '-' !in r && forall c :: c != '-' ==> (c in r <==> c in uuid.value)
    ensures uuid.None? ==> r == Hex(randomBytes) && |r| == 2 * |randomBytes|
  {
    match uuid
    case Some(u) => RemoveDashes(u)
    case None => Hex(randomBytes)
  }

  /** On either branch the key is hex text: 32 digits of a UUID's bytes, or
      64 digits of 32 random bytes. */
  lemma ApiKeyIsHex(uuidBytes: seq<bv8>, randomBytes: seq<bv8>)
    requires |uuidBytes| == 16 && |randomBytes| == 32
    ensures CreateApiKey(Some(UuidText(uuidBytes)), randomBytes) == Hex(uuidBytes)
    ensures |CreateApiKey(Some(UuidText(uuidBytes)), randomBytes)| == 32
    ensures |CreateApiKey(None, randomBytes)| == 64
  {
    RemoveDashesOfUuid(uuidBytes);
  }

  /** `process.env.IDENTIFIER_SALT || 'default-salt-change-me'`. */
  function IdentifierSalt(env: Option<string>): (r: string)
    ensures env.Some? && env.value != "" ==> r == env.value
    ensures env.None? || env.value == "" ==> r == "default-salt-change-me"
  {
    if env.Some? && env.value != "" then env.value else "default-salt-change-me"
  }

  /** `createHashedIdentifier`; `sha256` stands for the hex SHA-256 digest. */
  function CreateHashedIdentifier(providerId: string, env: Option<string>, sha256: string -> string): (r: string)
    ensures env.Some? && env.value != "" ==> r == sha256(providerId + env.value)
    ensures env.None? || env.value == "" ==> r == sha256(providerId + "default-salt-change-me")
  {
    sha256(providerId + IdentifierSalt(env))
  }

  /** Under one salt, two providers share an identifier only through a
      digest collision: the salt is appended, never mixed in, so distinct
      provider ids hash distinct texts. */
  lemma IdentifierClashIsDigestCollision(a: string, b: string, env: Option<string>, sha256: string -> string)
    ensures CreateHashedIdentifier(a, env, sha256) == sha256(a + IdentifierSalt(env))
    ensures CreateHashedIdentifier(b, env, sha256) == sha256(b + IdentifierSalt(env))
    ensures a != b ==> a + IdentifierSalt(env) != b + IdentifierSalt(env)
  {
    AppendCancels(a, b, IdentifierSalt(env));
  }

  lemma AppendCancels(a: string, b: string, salt: string)
    ensures a + salt == b + salt ==> a == b
  {
    if a + salt == b + salt {
      assert a == (a + salt)[..|a|];
    }
  }

  /** `User_${hashedIdentifier.substring(0, 8)}`: the prefix and at most the
      first eight characters of the identifier. */
  function DisplayNameFor(hashedIdentifier: string): (r: string)
    ensures |r| == 5 + (if |hashedIdentifier| < 8 then |hashedIdentifier| else 8)
    ensures r[..5] == "User_"
    ensures forall i :: 5 <= i < |r| ==> r[i] == hashedIdentifier[i - 5]
  {
    "User_" + (if |hashedIdentifier| < 8 then hashedIdentifier else hashedIdentifier[..8])
  }

  /** The data `createAccountFromOAuth` persists. */
  function OAuthAccountData(hashedIdentifier: string, provider: string, apiKey: string, apiKeySalt: string): (d: AccountData)
    ensures d.hashedIdentifier == hashedIdentifier && d.displayName == DisplayNameFor(hashedIdentifier)
    ensures d.apiKey == apiKey && d.apiKeySalt == apiKeySalt
    ensures d.shareAllResults == Some(false) && d.oauthProvider == provider
  {
    AccountData(hashedIdentifier, DisplayNameFor(hashedIdentifier), apiKey, apiKeySalt, Some(false), provider)
  }

  /** `createAccountFromOAuth`: the random UUID (when available), the
      random bytes, the salt setting and the digest are parameters. */
  method CreateAccountFromOAuth(store: AccountStore, providerId: string, provider: string,
                                env: Option<string>, sha256: string -> string,
                                uuid: Option<string>, keyBytes: seq<bv8>, saltBytes: seq<bv8>)
    returns (r: Outcome<Account>)
    requires store.Valid()
    modifies store
    ensures store.Valid()
    ensures (store.rows, store.nextId, r) == PersistRows(old(store.rows), old(store.nextId),
      OAuthAccountData(CreateHashedIdentifier(providerId, env, sha256), provider,
                       CreateApiKey(uuid, keyBytes), Hex(saltBytes)))
  {
    var hashedIdentifier := CreateHashedIdentifier(providerId, env, sha256);
    var data := OAuthAccountData(hashedIdentifier, provider, CreateApiKey(uuid, keyBytes), Hex(saltBytes));
    r := store.Persist(data);
  }

  /** A created OAuth account is new, unshared, named after its identifier
      and tied to its provider. */
  lemma OAuthAccountShape(rows: seq<Account>, nextId: int, hashedIdentifier: string, provider: string, apiKey: string, apiKeySalt: string)
    requires PersistRows(rows, nextId, OAuthAccountData(hashedIdentifier, provider, apiKey, apiKeySalt)).2.Success?
    ensures var a := PersistRows(rows, nextId, OAuthAccountData(hashedIdentifier, provider, apiKey, apiKeySalt)).2.value;
      a.id == nextId && a.hashedIdentifier == hashedIdentifier && a.displayName == DisplayNameFor(hashedIdentifier) &&
      a.shareAllResults == Some(false) && a.oauthProvider == provider && a.results == []
  {
  }

  /** `regenerateApiKey`: a missing identifier is an error; otherwise the
      account with a new key and salt replaces the stored one. */
  method RegenerateApiKey(store: AccountStore, hashedIdentifier: string,
                          uuid: Option<string>, keyBytes: seq<bv8>, saltBytes: seq<bv8>)
    returns (r: Outcome<Account>)
    requires store.Valid()
    modifies store
    ensures store.Valid() && store.nextId == old(store.nextId)
    ensures Find(old(store.rows), ByHashedIdentifier(hashedIdentifier)).None? ==>
      r == Failure("No account found with hashedIdentifier: " + hashedIdentifier) && store.rows == old(store.rows)
    ensures Find(old(store.rows), ByHashedIdentifier(hashedIdentifier)).Some? ==>
      var i := Find(old(store.rows), ByHashedIdentifier(hashedIdentifier)).value;
      (store.rows, r) == ReplaceRows(old(store.rows),
        old(store.rows)[i].(apiKey := CreateApiKey(uuid, keyBytes), apiKeySalt := Hex(saltBytes)))
  {
    match Find(store.rows, ByHashedIdentifier(hashedIdentifier))
    case None =>
      r := Failure("No account found with hashedIdentifier: " + hashedIdentifier);
    case Some(i) =>
      var updated := store.rows[i].(apiKey := CreateApiKey(uuid, keyBytes), apiKeySalt := Hex(saltBytes));
      r := store.Replace(updated);
  }

  /** The regenerated account replaces the stored one in place: it differs
      from it only in the key and the salt, and no other row changes. */
  lemma RegeneratedDiffersOnlyInCredentials(rows: seq<Account>, i: nat, key: string, salt: string)
    requires UniqueColumns(rows) && i < |rows|
    requires ReplaceRows(rows, rows[i].(apiKey := key, apiKeySalt := salt)).1.Success?
    ensures var (rows', r) := ReplaceRows(rows, rows[i].(apiKey := key, apiKeySalt := salt));
      r.value.apiKey == key && r.value.apiKeySalt == salt &&
      r.value.(apiKey := rows[i].apiKey, apiKeySalt := rows[i].apiKeySalt) == rows[i] &&
      |rows'| == |rows| && rows'[i] == r.value &&
      forall j :: 0 <= j < |rows| && j != i ==> rows'[j] == rows[j]
  {
    FindUnique(rows, ById(rows[i].id), i);
  }
}
