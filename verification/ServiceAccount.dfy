/** The ServiceAccount controller. The external-name annotation is a resource's only link to the
    account it made, so an account whose key never reaches the annotation is lost to it. */
module ServiceAccountController {
  import opened Outcomes
  import Sequences

  datatype AccountSpec = AccountSpec(
    targetUser: string, accessKey: string, secretKey: string, name: string, description: string,
    policy: string, expiration: Option<int>)

  /** A remote account. `mine` marks those made by the resource under consideration. */
  datatype Account = Account(
    mine: bool, user: string, secret: string, name: string, description: string,
    policy: string, expiration: Option<int>)

  type Accounts = map<string, Account>

  /** `generated` is the key that the server would generate, `password` the secret that the
      controller would. */
  datatype Calls = Calls(
    info: Call, check: Call, add: Call, generated: string, password: string, update: Call, remove: Call)

  // ---------------------------------------------------------------- the server

  function Info(accounts: Accounts, key: string, call: Call): Result<Account> {
    if !call.Served? then Err(Transient) else if key in accounts then Ok(accounts[key]) else Err(NotFound)
  }

  /** The key of a new account: the requested one or a generated one. The server makes an account
      only under a key that is not taken. */
  function KeyFor(requested: string, generated: string): string {
    if requested != "" then requested else generated
  }

  predicate Makes(accounts: Accounts, key: string, call: Call) {
    call.Applied() && key != "" && key !in accounts
  }

  function Add(accounts: Accounts, key: string, account: Account, call: Call): (Accounts, Result<string>) {
    (if Makes(accounts, key, call) then accounts[key := account] else accounts,
     if !call.Served? then Err(Transient) else if key != "" && key !in accounts then Ok(key) else Err(AlreadyExists))
  }

  function Put(accounts: Accounts, key: string, account: Account, call: Call): (Accounts, Result<()>) {
    (if key in accounts && call.Applied() then accounts[key := account] else accounts,
     if !call.Served? then Err(Transient) else if key in accounts then Ok(()) else Err(NotFound))
  }

  function Remove(accounts: Accounts, key: string, call: Call): (Accounts, Result<()>) {
    (if call.Applied() then accounts - {key} else accounts,
     if !call.Served? then Err(Transient) else if key in accounts then Ok(()) else Err(NotFound))
  }

  /** An update request carries only the fields that are set. */
  datatype UpdateRequest = UpdateRequest(
    policy: string, name: string, description: string, expiration: Option<int>, secret: string)
  {
    function On(a: Account): Account {
      a.(policy := if policy != "" then policy else a.policy,
         name := if name != "" then name else a.name,
         description := if description != "" then description else a.description,
         expiration := if expiration.Some? then expiration else a.expiration,
         secret := if secret != "" then secret else a.secret)
    }
  }

  class AccountServer {
    var accounts: Accounts

    method InfoServiceAccount(key: string, call: Call) returns (r: Result<Account>)
      ensures r == Info(accounts, key, call)
    {
      if call != Served { return Err(Transient); }
      if key !in accounts { return Err(NotFound); }
      return Ok(accounts[key]);
    }

    method AddServiceAccount(requested: string, generated: string, account: Account,
            call: Call) returns (key: Result<string>)
      modifies this
      ensures (accounts, key) == Add(old(accounts), KeyFor(requested, generated), account, call)
    {
      var (after, reply) := Add(accounts, KeyFor(requested, generated), account, call);
      accounts, key := after, reply;
    }

    method UpdateServiceAccount(key: string, req: UpdateRequest, call: Call) returns (r: Result<()>)
      modifies this
      ensures (accounts, r) == if key in old(accounts) then Put(old(accounts), key, req.On(old(accounts)[key]), call)
                               else (old(accounts), if call.Served? then Err(NotFound) else Err(Transient))
    {
      if key !in accounts { return if call == Served then Err(NotFound) else Err(Transient); }
      var (after, reply) := Put(accounts, key, req.On(accounts[key]), call);
      accounts, r := after, reply;
    }

    method DeleteServiceAccount(key: string, call: Call) returns (r: Result<()>)
      modifies this
      ensures (accounts, r) == Remove(old(accounts), key, call)
    {
      var (after, reply) := Remove(accounts, key, call);
      accounts, r := after, reply;
    }
  }

  // ---------------------------------------------------------------- what each method does

  predicate UpToDate(spec: AccountSpec, info: Account) {
    && (spec.policy == "" || spec.policy == info.policy)
    && spec.expiration == info.expiration
  }

  function Observed(accounts: Accounts, spec: AccountSpec, external: string, calls: Calls): Result<Observation> {
    if external == "" then Ok(Observation(false, false))
    else
      match Info(accounts, external, calls.info)
      case Err(NotFound) => Ok(Observation(false, false))
      case Err(e) => Err(e)
      case Ok(info) => Ok(Observation(true, UpToDate(spec, info)))
  }

  function Wanted(spec: AccountSpec, secret: string): Account {
    Account(true, spec.targetUser, secret, spec.name, spec.description, spec.policy, spec.expiration)
  }

  /** Whether Create gets as far as asking the server for an account. */
  predicate Asks(accounts: Accounts, spec: AccountSpec, calls: Calls) {
    if spec.accessKey == "" then spec.secretKey == "" else calls.check.Served? && spec.accessKey !in accounts
  }

  function AfterCreate(accounts: Accounts, spec: AccountSpec, external: string, calls: Calls): (Accounts, string,
          Result<()>) {
    if !Asks(accounts, spec, calls) then
      (accounts, external,
       if spec.accessKey == "" then Err(Invalid)
       else if calls.check.Served? then Err(AlreadyExists) else Err(Transient))
    else
      var secret := if spec.secretKey == "" && spec.accessKey != "" then calls.password else spec.secretKey;
      var (after, key) := Add(accounts, KeyFor(spec.accessKey, calls.generated), Wanted(spec, secret), calls.add);
      (after, if key.Ok? then key.value else external, if key.Ok? then Ok(()) else Err(key.error))
  }

  function Request(spec: AccountSpec): UpdateRequest {
    UpdateRequest(spec.policy, spec.name, spec.description, spec.expiration, spec.secretKey)
  }

  function AfterUpdate(accounts: Accounts, spec: AccountSpec, external: string, calls: Calls): (Accounts, Result<()>) {
    if external == "" then (accounts, Err(Invalid))
    else if external !in accounts then (accounts, if calls.update.Served? then Err(NotFound) else Err(Transient))
    else Put(accounts, external, Request(spec).On(accounts[external]), calls.update)
  }

  /** A lookup that fails counts as absent, so Delete can report success with the account there. */
  function AfterDelete(accounts: Accounts, external: string, calls: Calls): (Accounts, Result<()>) {
    if external == "" || !calls.check.Served? || external !in accounts then (accounts, Ok(()))
    else Remove(accounts, external, calls.remove)
  }

  // ---------------------------------------------------------------- the client

  class ServiceAccount {
    var spec: AccountSpec
    var external: string
    var deleting: bool

    constructor (spec: AccountSpec, external: string)
      ensures this.spec == spec && this.external == external && !deleting
    {
      this.spec, this.external, deleting := spec, external, false;
    }
  }

  class ServiceAccountClient {
    const ma: AccountServer

    constructor (ma: AccountServer)
      ensures this.ma == ma
    {
      this.ma := ma;
    }

    method IsUpToDate(sa: ServiceAccount, info: Account) returns (latest: bool)
      ensures latest <==> UpToDate(sa.spec, info)
    {
      if sa.spec.policy != "" && sa.spec.policy != info.policy { return false; }
      var specExpiration, infoExpiration := sa.spec.expiration, info.expiration;
      if specExpiration.None? != infoExpiration.None? { return false; }
      if specExpiration.Some? && infoExpiration.Some? {
        if specExpiration.value != infoExpiration.value { return false; }
      }
      return true;
    }

    method Observe(sa: ServiceAccount, calls: Calls) returns (r: Result<Observation>)
      ensures r == Observed(ma.accounts, sa.spec, sa.external, calls)
    {
      var accessKey := sa.external;
      if accessKey == "" { return Ok(Observation(false, false)); }
      var info := ma.InfoServiceAccount(accessKey, calls.info);
      if info.Err? {
        if info.error == NotFound { return Ok(Observation(false, false)); }
        return Err(info.error);
      }
      var latest := IsUpToDate(sa, info.value);
      return Ok(Observation(true, latest));
    }

    method ServiceAccountExists(accessKey: string, call: Call) returns (r: Result<bool>)
      ensures r == if call.Served? then Ok(accessKey in ma.accounts) else Err(Transient)
    {
      var info := ma.InfoServiceAccount(accessKey, call);
      if info.Err? {
        if info.error == NotFound { return Ok(false); }
        return Err(info.error);
      }
      return Ok(true);
    }

    method Create(sa: ServiceAccount, calls: Calls) returns (r: Result<()>)
      modifies ma, sa`external
      ensures (ma.accounts, sa.external, r) == AfterCreate(old(ma.accounts), sa.spec, old(sa.external), calls)
    {
      var accessKey, secretKey := sa.spec.accessKey, sa.spec.secretKey;
      if accessKey == "" && secretKey != "" { return Err(Invalid); }
      if secretKey == "" && accessKey != "" { secretKey := calls.password; }

      var req := Account(true, sa.spec.targetUser, secretKey, sa.spec.name, sa.spec.description, "", None);
      if sa.spec.policy != "" { req := req.(policy := sa.spec.policy); }
      if sa.spec.expiration.Some? { req := req.(expiration := sa.spec.expiration); }

      if accessKey != "" {
        var present := ServiceAccountExists(accessKey, calls.check);
        if present.Err? { return Err(present.error); }
        if present.value { return Err(AlreadyExists); }
      }
      var key := ma.AddServiceAccount(accessKey, calls.generated, req, calls.add);
      if key.Err? { return Err(key.error); }
      sa.external := key.value;
      return Ok(());
    }

    method Update(sa: ServiceAccount, calls: Calls) returns (r: Result<()>)
      modifies ma
      ensures (ma.accounts, r) == AfterUpdate(old(ma.accounts), sa.spec, sa.external, calls)
    {
      if sa.external == "" { return Err(Invalid); }
      var req := UpdateRequest("", "", "", None, "");
      if sa.spec.policy != "" { req := req.(policy := sa.spec.policy); }
      if sa.spec.name != "" { req := req.(name := sa.spec.name); }
      if sa.spec.description != "" { req := req.(description := sa.spec.description); }
      if sa.spec.expiration.Some? { req := req.(expiration := sa.spec.expiration); }
      if sa.spec.secretKey != "" { req := req.(secret := sa.spec.secretKey); }
      r := ma.UpdateServiceAccount(sa.external, req, calls.update);
    }

    method Delete(sa: ServiceAccount, calls: Calls) returns (r: Result<()>)
      modifies ma
      ensures (ma.accounts, r) == AfterDelete(old(ma.accounts), sa.external, calls)
    {
      if sa.external == "" { return Ok(()); }
      var present := ServiceAccountExists(sa.external, calls.check);
      if present != Ok(true) { return Ok(()); }
      r := ma.DeleteServiceAccount(sa.external, calls.remove);
    }
  }

  // ---------------------------------------------------------------- what the methods answer

  /** A policy that the spec sets is the account's, and the expirations are the same, if any. */
  ghost predicate Agrees(spec: AccountSpec, a: Account) {
    && spec.policy in {"", a.policy}
    && (spec.expiration.Some? <==> a.expiration.Some?)
    && (spec.expiration.Some? ==> spec.expiration.value == a.expiration.value)
  }

  /** All that Observe can answer: absent without an external name or its account, unanswered, and
      otherwise whether the account agrees with the spec. */
  lemma ObserveAnswers(accounts: Accounts, spec: AccountSpec, external: string, calls: Calls)
    ensures var r := Observed(accounts, spec, external, calls);
            var there := external != "" && calls.info.Served? && external in accounts;
            && (r == Ok(Observation(false, false)) <==> external == "" || (calls.info.Served? && external !in accounts))
            && (r == Err(Transient) <==> external != "" && !calls.info.Served?)
            && (r == Ok(Observation(true, true)) <==> there && Agrees(spec, accounts[external]))
            && (r == Ok(Observation(true, false)) <==> there && !Agrees(spec, accounts[external]))
  {
  }

  /** Create gets to its request: a given key must be looked up and free, and a secret needs a key. */
  predicate CreateAsks(accounts: Accounts, spec: AccountSpec, calls: Calls) {
    && (spec.accessKey != "" ==> calls.check.Served? && spec.accessKey !in accounts)
    && (spec.secretKey != "" ==> spec.accessKey != "")
  }

  /** When Create completes, and what account it makes, even where it does not hear of it: for the
      target user, under the given or generated key, with the spec's fields and the spec's secret,
      or a generated password for a key without one. The external name is set exactly to the key
      of a completed Create. */
  lemma CreateAnswers(accounts: Accounts, spec: AccountSpec, external: string, calls: Calls)
    ensures var (after, external', r) := AfterCreate(accounts, spec, external, calls);
            var key := if spec.accessKey != "" then spec.accessKey else calls.generated;
            var grants := CreateAsks(accounts, spec, calls) && key != "" && key !in accounts;
            && (r.Ok? <==> grants && calls.add.Served?)
            && (r == Err(Invalid) <==> spec.accessKey == "" && spec.secretKey != "")
            && external' == (if r.Ok? then key else external)
            && after == if !(grants && calls.add.Applied()) then accounts else accounts[key := Account(
                 mine := true, user := spec.targetUser, name := spec.name, description := spec.description,
                 policy := spec.policy, expiration := spec.expiration,
                 secret := if spec.accessKey != "" && spec.secretKey == "" then calls.password else spec.secretKey)]
  {
  }

  /** When Update completes, and what it writes if it takes effect: each field that the spec sets, and
      no other. */
  lemma UpdateAnswers(accounts: Accounts, spec: AccountSpec, external: string, calls: Calls)
    ensures var (after, r) := AfterUpdate(accounts, spec, external, calls);
            && (r.Ok? <==> external != "" && external in accounts && calls.update.Served?)
            && (r == Err(Invalid) <==> external == "")
            && (external != "" && external in accounts && calls.update.Applied() ==>
                  && after.Keys == accounts.Keys && after - {external} == accounts - {external}
                  && var (a, a') := (accounts[external], after[external]);
                     && a'.mine == a.mine && a'.user == a.user
                     && (if spec.policy == "" then a'.policy == a.policy else a'.policy == spec.policy)
                     && (if spec.name == "" then a'.name == a.name else a'.name == spec.name)
                     && (if spec.description == "" then a'.description == a.description
                         else a'.description == spec.description)
                     && (if spec.secretKey == "" then a'.secret == a.secret else a'.secret == spec.secretKey)
                     && (if spec.expiration.None? then a'.expiration == a.expiration
                         else a'.expiration == spec.expiration))
            && (external == "" || external !in accounts || calls.update.Dropped? ==> after == accounts)
  {
  }

  /** Delete completes exactly unless the account is found and the removal is not answered, and removes
      it exactly if it is found and the removal takes effect. */
  lemma DeleteAnswers(accounts: Accounts, external: string, calls: Calls)
    ensures var (after, r) := AfterDelete(accounts, external, calls);
            var found := external != "" && calls.check.Served? && external in accounts;
            && (r.Ok? <==> found ==> calls.remove.Served?)
            && after == if found && calls.remove.Applied() then accounts - {external} else accounts
  {
  }

  // ---------------------------------------------------------------- convergence of Update

  /** After a completed Update Observe reports the account up to date exactly if the spec sets an
      expiration or the account had none, whatever else the account held. */
  lemma UpdateConvergesIff(accounts: Accounts, spec: AccountSpec, external: string, calls: Calls, look: Calls)
    requires external != "" && external in accounts && calls.update.Served? && look.info.Served?
    ensures var after := AfterUpdate(accounts, spec, external, calls).0;
            Observed(after, spec, external, look) == Ok(Observation(true, true)) <==>
            spec.expiration.Some? || accounts[external].expiration.None?
  {
  }

  function UpdateMany(accounts: Accounts, spec: AccountSpec, external: string, tries: seq<Calls>): Accounts {
    if tries == [] then accounts
    else AfterUpdate(UpdateMany(accounts, spec, external, tries[..|tries| - 1]), spec, external, tries[|tries| - 1]).0
  }

  /** Dropping the expiration from a spec never takes effect: however often Update is tried, the
      account keeps an expiration and stays out of date. */
  lemma {:induction false} DroppedExpirationNeverConverges(accounts: Accounts, spec: AccountSpec, external: string,
          tries: seq<Calls>, look: Calls)
    requires external != "" && external in accounts && look.info.Served?
    requires spec.expiration.None? && accounts[external].expiration.Some?
    ensures var end := UpdateMany(accounts, spec, external, tries);
            && external in end && end[external].expiration == accounts[external].expiration
            && Observed(end, spec, external, look) == Ok(Observation(true, false))
  {
    if tries == [] {
    } else {
      DroppedExpirationNeverConverges(accounts, spec, external, tries[..|tries| - 1], look);
    }
  }

  lemma UpdateOnce(accounts: Accounts, spec: AccountSpec, external: string, calls: Calls)
    requires external in accounts
    ensures var end := AfterUpdate(accounts, spec, external, calls).0;
            && external in end && end - {external} == accounts - {external}
            && end[external] == if external != "" && calls.update.Applied() then Request(spec).On(accounts[external])
                                else accounts[external]
  {
  }

  /** Fields that the spec leaves empty are never written, however often Update is tried and
      wherever it fails; those it sets are in place as soon as one try has reached the server. */
  lemma {:induction false} UpdateWritesSetFields(accounts: Accounts, spec: AccountSpec, external: string,
          tries: seq<Calls>)
    requires external in accounts
    ensures var end := UpdateMany(accounts, spec, external, tries);
            && external in end && end - {external} == accounts - {external}
            && end[external] == if external != "" && exists i :: 0 <= i < |tries| && tries[i].update.Applied()
                                then Request(spec).On(accounts[external]) else accounts[external]
  {
    if tries == [] {
    } else {
      var init, last := tries[..|tries| - 1], tries[|tries| - 1];
      UpdateWritesSetFields(accounts, spec, external, init);
      UpdateOnce(UpdateMany(accounts, spec, external, init), spec, external, last);
      if i :| 0 <= i < |init| && init[i].update.Applied() {
        assert tries[i].update.Applied();
      } else if last.update.Applied() {
        assert tries[|tries| - 1].update.Applied();
      } else {
        assert forall i :: 0 <= i < |tries| ==> tries[i] == if i < |init| then init[i] else last;
      }
    }
  }

  /** A new account is reported up to date. */
  lemma CreateSettles(accounts: Accounts, spec: AccountSpec, external: string, calls: Calls, look: Calls)
    requires CreateAsks(accounts, spec, calls) && calls.add.Served? && look.info.Served?
    requires KeyFor(spec.accessKey, calls.generated) != "" && KeyFor(spec.accessKey, calls.generated) !in accounts
    ensures var (after, key, _) := AfterCreate(accounts, spec, external, calls);
            && key !in accounts && key in after && after - {key} == accounts && after[key].mine
            && (spec.accessKey != "" ==> key == spec.accessKey)
            && Observed(after, spec, key, look) == Ok(Observation(true, true))
  {
    var (after, key, _) := AfterCreate(accounts, spec, external, calls);
    assert after - {key} == accounts;
  }

  // ---------------------------------------------------------------- runs

  /** The server, the resource's annotation as the API server keeps it, and whether its
      finalizer has been released. */
  datatype State = State(accounts: Accounts, external: string, released: bool)

  /** A reconcile with the spec of the moment, or outsiders removing and writing accounts. `saved`
      is whether the annotations reach the API server; status writes carry no identity. */
  datatype Step =
    | Turn(spec: AccountSpec, deleting: bool, calls: Calls, saved: bool)
    | Outside(removed: set<string>, written: Accounts)

  function Next(s: State, st: Step): State {
    match st
    case Outside(removed, written) =>
      s.(accounts := map k | k in s.accounts.Keys + written.Keys && k !in removed && k != "" ::
                       if k in written then written[k].(mine := k in s.accounts && s.accounts[k].mine)
                       else s.accounts[k])
    case Turn(spec, deleting, calls, saved) =>
      if s.released then s
      else
        match Observed(s.accounts, spec, s.external, calls)
        case Err(_) => s
        case Ok(seen) =>
          if deleting then
            if seen.present then s.(accounts := AfterDelete(s.accounts, s.external, calls).0)
            else s.(released := true)
          else if !seen.present then
            var (after, external, _) := AfterCreate(s.accounts, spec, s.external, calls);
            s.(accounts := after, external := if saved then external else s.external)
          else if !seen.upToDate then s.(accounts := AfterUpdate(s.accounts, spec, s.external, calls).0)
          else s
  }

  method ReconcileOnce(client: ServiceAccountClient, sa: ServiceAccount, calls: Calls) returns (released: bool)
    modifies client.ma, sa`external
    ensures State(client.ma.accounts, sa.external, released) ==
            Next(State(old(client.ma.accounts), old(sa.external), false), Turn(sa.spec, sa.deleting, calls, true))
  {
    released := false;
    var seen := client.Observe(sa, calls);
    if seen.Err? { return; }
    if sa.deleting {
      if !seen.value.present { return true; }
      var _ := client.Delete(sa, calls);
    } else if !seen.value.present {
      var _ := client.Create(sa, calls);
    } else if !seen.value.upToDate {
      var _ := client.Update(sa, calls);
    }
  }

  /** A served and saved reconcile of a live resource ends with an account that agrees with the spec,
      exactly unless the account had an expiration that the spec drops; it makes one only if the
      annotation names none, and writes nothing if there is one that agrees. */
  lemma ServedReconcileSettles(s: State, spec: AccountSpec, calls: Calls)
    requires !s.released && "" !in s.accounts && calls.info.Served? && calls.update.Served? && calls.add.Served?
    requires s.external !in s.accounts ==>
               && CreateAsks(s.accounts, spec, calls)
               && KeyFor(spec.accessKey, calls.generated) != ""
               && KeyFor(spec.accessKey, calls.generated) !in s.accounts
    ensures var s' := Next(s, Turn(spec, false, calls, true));
            && s'.external in s'.accounts && !s'.released
            && (Agrees(spec, s'.accounts[s'.external]) <==>
                !(s.external in s.accounts && spec.expiration.None? && s.accounts[s.external].expiration.Some?))
            && (s.external in s.accounts ==> s'.external == s.external && s'.accounts.Keys == s.accounts.Keys)
            && (s.external in s.accounts && Agrees(spec, s.accounts[s.external]) ==> s' == s)
  {
  }

  function Run(s: State, steps: seq<Step>): State {
    if steps == [] then s else Next(Run(s, steps[..|steps| - 1]), steps[|steps| - 1])
  }

  /** The live accounts that the resource made. */
  function Mine(s: State): set<string> { set k | k in s.accounts && s.accounts[k].mine }

  /** A step in which the server made an account whose key did not get into the annotation: the
      server's answer or the annotation write was lost. */
  predicate Loses(s: State, st: Step) {
    && st.Turn? && !s.released && !st.deleting
    && Observed(s.accounts, st.spec, s.external, st.calls) == Ok(Observation(false, false))
    && Asks(s.accounts, st.spec, st.calls)
    && Makes(s.accounts, KeyFor(st.spec.accessKey, st.calls.generated), st.calls.add)
    && (!st.calls.add.Served? || !st.saved)
  }

  /** How often that happened, and the keys it happened to. */
  function Losses(s: State, steps: seq<Step>): nat {
    if steps == [] then 0
    else
      Losses(s, steps[..|steps| - 1]) +
      if Loses(Run(s, steps[..|steps| - 1]), steps[|steps| - 1]) then 1 else 0
  }

  function LostKeys(s: State, steps: seq<Step>): set<string> {
    if steps == [] then {}
    else
      var (init, last) := (steps[..|steps| - 1], steps[|steps| - 1]);
      LostKeys(s, init) + if Loses(Run(s, init), last) then {KeyFor(last.spec.accessKey, last.calls.generated)} else {}
  }

  ghost predicate Fresh(s: State) { Mine(s) == {} && "" !in s.accounts }

  /** What one step does to the accounts that the resource made. */
  lemma StepAccounts(s: State, st: Step)
    requires "" !in s.accounts
    ensures var s' := Next(s, st);
            && "" !in s'.accounts
            && (s'.released && !s.released ==> s.external !in Mine(s') && s'.external == s.external)
            && forall k :: k in Mine(s') ==>
                 || (k in Mine(s) && (k == s.external ==> s'.external == s.external))
                 || (if Loses(s, st) then k == KeyFor(st.spec.accessKey, st.calls.generated) else k == s'.external)
  {
  }

  lemma {:induction false} Accounted(s: State, steps: seq<Step>)
    requires Fresh(s)
    ensures "" !in Run(s, steps).accounts
    ensures Mine(Run(s, steps)) <= LostKeys(s, steps) + {Run(s, steps).external}
    ensures Run(s, steps).released && !s.released ==> Mine(Run(s, steps)) <= LostKeys(s, steps)
    ensures |LostKeys(s, steps)| <= Losses(s, steps)
  {
    if steps == [] {
    } else {
      var init, last := steps[..|steps| - 1], steps[|steps| - 1];
      Accounted(s, init);
      StepAccounts(Run(s, init), last);
    }
  }

  /** No runaway creation: whatever writes are lost, whatever outsiders remove and whichever calls
      fail, at most one account plus one for each lost key is alive, and all but the one the
      annotation names are lost ones. */
  lemma {:induction false} NoRunaway(s: State, steps: seq<Step>)
    requires Fresh(s)
    ensures Mine(Run(s, steps)) - {Run(s, steps).external} <= LostKeys(s, steps)
    ensures |Mine(Run(s, steps))| <= 1 + Losses(s, steps)
  {
    Accounted(s, steps);
    var end := Run(s, steps);
    Sequences.SubsetSize(Mine(end) - {end.external}, LostKeys(s, steps));
    Sequences.SubsetSize(Mine(end), (Mine(end) - {end.external}) + {end.external});
  }

  /** Clean release: when the finalizer is gone, no account the resource made is alive but lost
      ones, so none at all if no key was lost, although Delete may have reported success on a
      failed lookup. */
  lemma CleanRelease(s: State, steps: seq<Step>)
    requires Fresh(s) && !s.released && Run(s, steps).released
    ensures Mine(Run(s, steps)) <= LostKeys(s, steps)
    ensures Losses(s, steps) == 0 ==> Mine(Run(s, steps)) == {}
  {
    Accounted(s, steps);
  }

  /** Deletion does complete: a reconcile that is served removes the account the annotation names,
      and the next one releases the resource; one whose lookup in Delete fails changes nothing. */
  lemma DeletionCompletes(s: State, spec: AccountSpec, calls: Calls, saved: bool)
    requires !s.released && s.external != "" && s.external in s.accounts
    requires calls.info.Served? && calls.remove.Served?
    ensures var s' := Next(s, Turn(spec, true, calls, saved));
            if calls.check.Served? then
              && s'.accounts == s.accounts - {s.external} && !s'.released
              && Next(s', Turn(spec, true, calls, saved)) == s'.(released := true)
            else s' == s && AfterDelete(s.accounts, s.external, calls).1.Ok?
  {
  }

  /** As long as no key is recorded, every lost annotation write leaves one more live account
      behind. */
  lemma LostWriteAddsOne(s: State, st: Step)
    requires Loses(s, st) && !st.saved && s.external == ""
    ensures Next(s, st).external == "" && |Mine(Next(s, st))| == |Mine(s)| + 1
  {
    var key := KeyFor(st.spec.accessKey, st.calls.generated);
    assert Mine(Next(s, st)) == Mine(s) + {key};
  }

  /** A served reconcile, the server generating a key of n letters. */
  function ServedTurn(spec: AccountSpec, n: nat, saved: bool): Step {
    Turn(spec, false, Calls(Served, Served, Served, seq(n, _ => 'k'), "", Served, Served), saved)
  }

  /** n reconciles whose annotation writes are lost. */
  function Unlucky(spec: AccountSpec, n: nat): seq<Step> {
    if n == 0 then [] else Unlucky(spec, n - 1) + [ServedTurn(spec, n, false)]
  }

  lemma UnluckyStep(s: State, spec: AccountSpec, n: nat)
    requires spec.accessKey == "" && spec.secretKey == "" && n > 0
    requires s.external == "" && !s.released && forall k :: k in s.accounts ==> |k| < n
    ensures var (st, s') := (ServedTurn(spec, n, false), Next(s, ServedTurn(spec, n, false)));
            && Loses(s, st) && s'.external == "" && !s'.released
            && (forall k :: k in s'.accounts ==> |k| <= n)
            && |Mine(s')| == |Mine(s)| + 1
  {
    var key := ServedTurn(spec, n, false).calls.generated;
    assert |key| == n && key !in s.accounts;
    LostWriteAddsOne(s, ServedTurn(spec, n, false));
  }

  lemma {:induction false} UnluckyLeaves(spec: AccountSpec, n: nat)
    requires spec.accessKey == "" && spec.secretKey == ""
    ensures var (start, steps) := (State(map[], "", false), Unlucky(spec, n));
            var end := Run(start, steps);
            && end.external == "" && !end.released
            && (forall k :: k in end.accounts ==> |k| <= n)
            && |Mine(end)| == n && Losses(start, steps) == n
  {
    if n == 0 {
    } else {
      UnluckyLeaves(spec, n - 1);
      UnluckyStep(Run(State(map[], "", false), Unlucky(spec, n - 1)), spec, n);
      assert Unlucky(spec, n)[..|Unlucky(spec, n)| - 1] == Unlucky(spec, n - 1);
    }
  }

  lemma LuckyStep(s: State, spec: AccountSpec, n: nat)
    requires spec.accessKey == "" && spec.secretKey == "" && n > 0
    requires s.external == "" && !s.released && forall k :: k in s.accounts ==> |k| < n
    ensures !Loses(s, ServedTurn(spec, n, true)) && |Mine(Next(s, ServedTurn(spec, n, true)))| == |Mine(s)| + 1
  {
    var key := ServedTurn(spec, n, true).calls.generated;
    assert |key| == n && key !in s.accounts;
    assert Mine(Next(s, ServedTurn(spec, n, true))) == Mine(s) + {key};
  }

  /** The bound of NoRunaway is reached for any number of losses. */
  lemma {:induction false} BoundIsReached(spec: AccountSpec, n: nat)
    requires spec.accessKey == "" && spec.secretKey == ""
    ensures var start := State(map[], "", false);
            exists steps :: Fresh(start) && Losses(start, steps) == n && |Mine(Run(start, steps))| == n + 1
  {
    var start := State(map[], "", false);
    var steps := Unlucky(spec, n) + [ServedTurn(spec, n + 1, true)];
    UnluckyLeaves(spec, n);
    LuckyStep(Run(start, Unlucky(spec, n)), spec, n + 1);
    assert steps[..|steps| - 1] == Unlucky(spec, n);
    assert Losses(start, steps) == n;
  }

  /** With a fixed access key in the spec there is at most one account, however much is lost. */
  lemma {:induction false} PinnedKeyNeverRunsAway(s: State, steps: seq<Step>, key: string)
    requires Fresh(s) && key != ""
    requires forall st :: st in steps && st.Turn? ==> st.spec.accessKey == key
    ensures Mine(Run(s, steps)) <= {key}
  {
    if steps == [] {
    } else {
      PinnedKeyNeverRunsAway(s, steps[..|steps| - 1], key);
      PinnedStep(Run(s, steps[..|steps| - 1]), steps[|steps| - 1], key);
    }
  }

  lemma PinnedStep(s: State, st: Step, key: string)
    requires key != "" && (st.Turn? ==> st.spec.accessKey == key)
    ensures Mine(Next(s, st)) <= Mine(s) + {key}
  {
  }
}
