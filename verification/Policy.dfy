/** The Policy controller: a canned policy per resource, guarded by an existence check in Create
    and a claim gate in Observe. */
module PolicyController {
  import opened Outcomes
  import opened Ownership

  /** A policy document: the one rendered for a bucket, or a raw text. */
  datatype Document = AllowBucket(bucket: string) | Raw(text: string)

  datatype PolicySpec = PolicySpec(allowBucket: string, rawPolicy: string)

  type Policies = map<string, Object<Document>>
  type PolicyCR = Resource<PolicySpec>

  /** What a document parses to, None if it does not parse. */
  type Parser = Document -> Option<nat>

  /** `valid` says whether the rendered bucket policy passes its validation. */
  datatype Calls = Calls(list: Call, valid: bool, relist: Call, add: Call, remove: Call)

  // ---------------------------------------------------------------- the server

  /** Adding a policy overwrites one of the same name. */
  function Add(ps: Policies, name: string, doc: Document, me: nat, call: Call): (Policies, Result<()>) {
    (if call.Applied() then ps[name := Object(if name in ps then ps[name].origin else By(me), doc)] else ps,
     if call.Served? then Ok(()) else Err(Transient))
  }

  function Remove(ps: Policies, name: string, call: Call): (Policies, Result<()>) {
    (if call.Applied() then ps - {name} else ps,
     if !call.Served? then Err(Transient) else if name in ps then Ok(()) else Err(NotFound))
  }

  class PolicyServer {
    var policies: Policies

    method ListCannedPolicies(call: Call) returns (r: Result<Policies>)
      ensures r == if call.Served? then Ok(policies) else Err(Transient)
    {
      r := if call.Served? then Ok(policies) else Err(Transient);
    }

    method AddCannedPolicy(name: string, doc: Document, me: nat, call: Call) returns (r: Result<()>)
      modifies this
      ensures (policies, r) == Add(old(policies), name, doc, me, call)
    {
      var (after, reply) := Add(policies, name, doc, me, call);
      policies, r := after, reply;
    }

    method RemoveCannedPolicy(name: string, call: Call) returns (r: Result<()>)
      modifies this
      ensures (policies, r) == Remove(old(policies), name, call)
    {
      var (after, reply) := Remove(policies, name, call);
      policies, r := after, reply;
    }

    /** Somebody else adds policies under names that are free. */
    method Interfere(late: Policies)
      modifies this
      ensures policies == late + old(policies)
    {
      policies := late + policies;
    }
  }

  // ---------------------------------------------------------------- what each method does

  function SameObject(a: Document, b: Document, parse: Parser): Result<bool> {
    if parse(a).None? || parse(b).None? then Err(Invalid) else Ok(parse(a) == parse(b))
  }

  function Observed(ps: Policies, cr: PolicyCR, parse: Parser, calls: Calls): Result<Observation> {
    if !cr.claimed then Ok(Observation(false, false))
    else if !calls.list.Served? then Err(Transient)
    else if cr.name !in ps then Ok(Observation(false, false))
    else
      var doc := ps[cr.name].body;
      var bucketSame := if cr.spec.allowBucket == "" then Ok(true)
                        else if !calls.valid then Err(Invalid)
                        else SameObject(AllowBucket(cr.spec.allowBucket), doc, parse);
      var rawSame := if cr.spec.rawPolicy == "" then Ok(true) else SameObject(Raw(cr.spec.rawPolicy), doc, parse);
      match bucketSame
      case Err(e) => Err(e)
      case Ok(false) => Ok(Observation(true, false))
      case Ok(true) =>
        match rawSame
        case Err(e) => Err(e)
        case Ok(same) => Ok(Observation(true, same))
  }

  /** The bucket policy comes first; the claim is set with either. */
  function Written(ps: Policies, cr: PolicyCR, me: nat, calls: Calls): (Policies, PolicyCR, Result<()>) {
    if cr.spec.allowBucket != "" && !calls.valid then (ps, cr, Err(Invalid))
    else
      var doc := if cr.spec.allowBucket != "" then AllowBucket(cr.spec.allowBucket) else Raw(cr.spec.rawPolicy);
      var (ps', r) := Add(ps, cr.name, doc, me, calls.add);
      (ps', if r.Ok? then cr.(claimed := true) else cr, r)
  }

  /** `late` are policies that outsiders add between Create's check and its write. */
  function AfterCreate(ps: Policies, cr: PolicyCR, me: nat, late: Policies, calls: Calls): (Policies, PolicyCR,
          Result<()>) {
    if !calls.relist.Served? then (late + ps, cr, Err(Transient))
    else if cr.name in ps then (late + ps, cr, Err(AlreadyExists))
    else if cr.spec.allowBucket == "" && cr.spec.rawPolicy == "" then (late + ps, cr, Err(Invalid))
    else Written(late + ps, cr, me, calls)
  }

  function AfterUpdate(ps: Policies, cr: PolicyCR, me: nat, calls: Calls): (Policies, PolicyCR, Result<()>) {
    if !calls.relist.Served? then (ps, cr, Err(Transient))
    else if cr.name !in ps then (ps, cr, Err(NotFound))
    else if cr.spec.allowBucket == "" && cr.spec.rawPolicy == "" then (ps, cr, Ok(()))
    else Written(ps, cr, me, calls)
  }

  // ---------------------------------------------------------------- the client

  class Policy {
    const name: string
    var spec: PolicySpec
    var claimed: bool
    var deleting: bool

    constructor (name: string, spec: PolicySpec)
      ensures Value() == Resource(name, spec, false, "", false)
    {
      this.name, this.spec, claimed, deleting := name, spec, false, false;
    }

    function Value(): PolicyCR reads this { Resource(name, spec, claimed, "", deleting) }
  }

  class PolicyClient {
    const ma: PolicyServer
    const parse: Parser

    constructor (ma: PolicyServer, parse: Parser)
      ensures this.ma == ma && this.parse == parse
    {
      this.ma, this.parse := ma, parse;
    }

    method Observe(policy: Policy, calls: Calls) returns (r: Result<Observation>)
      ensures r == Observed(ma.policies, policy.Value(), parse, calls)
    {
      if !policy.claimed { return Ok(Observation(false, false)); }
      var policies := ma.ListCannedPolicies(calls.list);
      if policies.Err? { return Err(policies.error); }
      if policy.name !in policies.value { return Ok(Observation(false, false)); }
      var observedPolicy := policies.value[policy.name].body;

      if policy.spec.allowBucket != "" {
        if !calls.valid { return Err(Invalid); }
        var equal := SameObject(AllowBucket(policy.spec.allowBucket), observedPolicy, parse);
        if equal.Err? { return Err(equal.error); }
        if !equal.value { return Ok(Observation(true, false)); }
      }
      if policy.spec.rawPolicy != "" {
        var equal := SameObject(Raw(policy.spec.rawPolicy), observedPolicy, parse);
        if equal.Err? { return Err(equal.error); }
        if !equal.value { return Ok(Observation(true, false)); }
      }
      return Ok(Observation(true, true));
    }

    method Write(policy: Policy, me: nat, calls: Calls) returns (r: Result<()>)
      modifies ma, policy
      ensures (ma.policies, policy.Value(), r) == Written(old(ma.policies), old(policy.Value()), me, calls)
    {
      if policy.spec.allowBucket != "" {
        if !calls.valid { return Err(Invalid); }
        r := ma.AddCannedPolicy(policy.name, AllowBucket(policy.spec.allowBucket), me, calls.add);
      } else {
        r := ma.AddCannedPolicy(policy.name, Raw(policy.spec.rawPolicy), me, calls.add);
      }
      if r.Err? { return; }
      policy.claimed := true;
    }

    method Create(policy: Policy, me: nat, late: Policies, calls: Calls) returns (r: Result<()>)
      modifies ma, policy
      ensures (ma.policies, policy.Value(), r) == AfterCreate(old(ma.policies), old(policy.Value()), me, late, calls)
    {
      var policies := ma.ListCannedPolicies(calls.relist);
      ma.Interfere(late);
      if policies.Err? { return Err(policies.error); }
      if policy.name in policies.value { return Err(AlreadyExists); }
      if policy.spec.allowBucket == "" && policy.spec.rawPolicy == "" { return Err(Invalid); }
      r := Write(policy, me, calls);
    }

    method Update(policy: Policy, me: nat, calls: Calls) returns (r: Result<()>)
      modifies ma, policy
      ensures (ma.policies, policy.Value(), r) == AfterUpdate(old(ma.policies), old(policy.Value()), me, calls)
    {
      var policies := ma.ListCannedPolicies(calls.relist);
      if policies.Err? { return Err(policies.error); }
      if policy.name !in policies.value { return Err(NotFound); }
      if policy.spec.allowBucket == "" && policy.spec.rawPolicy == "" { return Ok(()); }
      r := Write(policy, me, calls);
    }

    method Delete(policy: Policy, calls: Calls) returns (r: Result<()>)
      modifies ma
      ensures (ma.policies, r) == Remove(old(ma.policies), policy.name, calls.remove)
    {
      r := ma.RemoveCannedPolicy(policy.name, calls.remove);
    }
  }

  // ---------------------------------------------------------------- what the methods answer

  /** A form cannot be compared with the stored document, or is not what that parses to. */
  ghost predicate Unreadable(form: Document, stored: Document, parse: Parser) {
    parse(form).None? || parse(stored).None?
  }
  ghost predicate Drifted(form: Document, stored: Document, parse: Parser) {
    parse(form).Some? && parse(stored).Some? && parse(form).value != parse(stored).value
  }

  /** All that Observe can answer: absent without the claim or the policy; unanswered; invalid, if a
      form that is given cannot be compared, the bucket form first; drift, if one that is given
      parses to something else than the stored document; and up to date otherwise. */
  lemma ObserveAnswers(ps: Policies, cr: PolicyCR, parse: Parser, calls: Calls)
    ensures var (r, spec) := (Observed(ps, cr, parse, calls), cr.spec);
            var there := cr.claimed && calls.list.Served? && cr.name in ps;
            && (r == Ok(Observation(false, false)) <==> !cr.claimed || (calls.list.Served? && cr.name !in ps))
            && (r == Err(Transient) <==> cr.claimed && !calls.list.Served?)
            && (there ==>
                  var (bucket, raw, stored) := (AllowBucket(spec.allowBucket), Raw(spec.rawPolicy), ps[cr.name].body);
                  var badBucket := spec.allowBucket != "" && (!calls.valid || Unreadable(bucket, stored, parse));
                  var oldBucket := spec.allowBucket != "" && !badBucket && Drifted(bucket, stored, parse);
                  var badRaw := spec.rawPolicy != "" && Unreadable(raw, stored, parse);
                  var oldRaw := spec.rawPolicy != "" && Drifted(raw, stored, parse);
                  && (r == Err(Invalid) <==> badBucket || (!oldBucket && badRaw))
                  && (r == Ok(Observation(true, false)) <==> !badBucket && (oldBucket || oldRaw))
                  && (r == Ok(Observation(true, true)) <==> !badBucket && !oldBucket && !badRaw && !oldRaw))
  {
  }

  /** The document for a spec: the bucket's if one is given, otherwise the raw one. */
  function Wanted(spec: PolicySpec): Document {
    if spec.allowBucket != "" then AllowBucket(spec.allowBucket) else Raw(spec.rawPolicy)
  }

  predicate Writable(spec: PolicySpec, calls: Calls) {
    if spec.allowBucket != "" then calls.valid else spec.rawPolicy != ""
  }

  /** Create gets to its write, and the write is answered. */
  predicate CreateRuns(ps: Policies, cr: PolicyCR, calls: Calls) {
    calls.relist.Served? && cr.name !in ps && Writable(cr.spec, calls) && calls.add.Served?
  }

  /** Create writes exactly if the policy was not there and a form can be rendered, even where it does
      not hear of it, and completes exactly if it does. */
  lemma CreateAnswers(ps: Policies, cr: PolicyCR, me: nat, late: Policies, calls: Calls)
    ensures var (ps', cr', r) := AfterCreate(ps, cr, me, late, calls);
            var now := late + ps;
            && (r.Ok? <==> CreateRuns(ps, cr, calls))
            && (r == Err(AlreadyExists) <==> calls.relist.Served? && cr.name in ps)
            && cr' == cr.(claimed := cr.claimed || r.Ok?)
            && ps' == if calls.relist.Served? && cr.name !in ps && Writable(cr.spec, calls) && calls.add.Applied()
                      then var origin := if cr.name in now then now[cr.name].origin else By(me);
                           now[cr.name := Object(origin, Wanted(cr.spec))]
                      else now
  {
  }

  /** Update needs a policy that is there, and the write only if a form is given. */
  predicate UpdateRuns(ps: Policies, cr: PolicyCR, calls: Calls) {
    && calls.relist.Served? && cr.name in ps
    && ((cr.spec.allowBucket == "" && cr.spec.rawPolicy == "") || (Writable(cr.spec, calls) && calls.add.Served?))
  }

  /** It writes the document of the spec over the stored one, and keeps who made it. */
  lemma UpdateAnswers(ps: Policies, cr: PolicyCR, me: nat, calls: Calls)
    ensures var (ps', cr', r) := AfterUpdate(ps, cr, me, calls);
            && (r.Ok? <==> UpdateRuns(ps, cr, calls))
            && (r == Err(NotFound) <==> calls.relist.Served? && cr.name !in ps)
            && cr' == cr.(claimed := cr.claimed || (r.Ok? && Writable(cr.spec, calls)))
            && ps' == if calls.relist.Served? && cr.name in ps && Writable(cr.spec, calls) && calls.add.Applied()
                      then ps[cr.name := Object(ps[cr.name].origin, Wanted(cr.spec))] else ps
  {
  }

  /** Delete removes the policy whenever the call takes effect, and completes exactly if it was there and
      the call is answered. */
  lemma DeleteAnswers(ps: Policies, name: string, call: Call)
    ensures var (ps', r) := Remove(ps, name, call);
            && (name in ps' <==> name in ps && call.Dropped?)
            && (forall n :: n != name ==> (n in ps' <==> n in ps) && (n in ps ==> ps'[n] == ps[n]))
            && (r.Ok? <==> call.Served? && name in ps)
  {
  }

  // ---------------------------------------------------------------- convergence

  /** After a completed Update Observe reports the policy up to date, exactly unless the spec
      gives both forms and they parse to different policies. */
  lemma UpdateConvergesIff(ps: Policies, cr: PolicyCR, me: nat, parse: Parser, calls: Calls, look: Calls)
    requires cr.claimed && UpdateRuns(ps, cr, calls) && look.list.Served? && look.valid
    requires cr.spec.allowBucket != "" ==> parse(AllowBucket(cr.spec.allowBucket)).Some?
    requires cr.spec.rawPolicy != "" ==> parse(Raw(cr.spec.rawPolicy)).Some?
    ensures Observed(AfterUpdate(ps, cr, me, calls).0, cr, parse, look) == Ok(Observation(true, true)) <==>
            !(cr.spec.allowBucket != "" && cr.spec.rawPolicy != "" &&
              parse(AllowBucket(cr.spec.allowBucket)) != parse(Raw(cr.spec.rawPolicy)))
  {
  }

  /** A completed Create stores what a completed Update would, so it settles alike. */
  lemma CreateConvergesIff(ps: Policies, cr: PolicyCR, me: nat, parse: Parser, calls: Calls, look: Calls)
    requires CreateRuns(ps, cr, calls) && look.list.Served? && look.valid
    requires cr.spec.allowBucket != "" ==> parse(AllowBucket(cr.spec.allowBucket)).Some?
    requires cr.spec.rawPolicy != "" ==> parse(Raw(cr.spec.rawPolicy)).Some?
    ensures var (ps', cr', _) := AfterCreate(ps, cr, me, map[], calls);
            && (Observed(ps', cr', parse, look) == Ok(Observation(true, true)) <==>
                !(cr.spec.allowBucket != "" && cr.spec.rawPolicy != "" &&
                  parse(AllowBucket(cr.spec.allowBucket)) != parse(Raw(cr.spec.rawPolicy))))
            && cr.name !in ps && ps' - {cr.name} == ps - {cr.name} && ps'[cr.name].origin == By(me)
  {
    assert map[] + ps == ps;
  }

  // ---------------------------------------------------------------- the claim machine

  type PolicyWorld = World<Document, PolicySpec>

  /** One reconcile: the server after it, and the resource in memory, None if released. Outsiders
      add `late` after Observe looked: in a Create, after its own check. */
  function Turn(ps: Policies, cr: PolicyCR, me: nat, late: Policies, parse: Parser, calls: Calls): (Policies,
          Option<PolicyCR>) {
    match Observed(ps, cr, parse, calls)
    case Err(_) => (late + ps, Some(cr))
    case Ok(seen) =>
      if cr.deleting then
        if seen.present then (Remove(late + ps, cr.name, calls.remove).0, Some(cr)) else (late + ps, None)
      else if !seen.present then
        var (ps', cr', _) := AfterCreate(ps, cr, me, late, calls);
        (ps', Some(cr'))
      else if seen.upToDate then (late + ps, Some(cr))
      else
        var (ps', cr', _) := AfterUpdate(late + ps, cr, me, calls);
        (ps', Some(cr'))
  }

  /** The client's methods, driven by the managed reconciler, make this turn. */
  method ReconcileOnce(client: PolicyClient, policy: Policy, me: nat, late: Policies,
          calls: Calls) returns (released: bool)
    modifies client.ma, policy
    ensures (client.ma.policies, if released then None else Some(policy.Value())) ==
            Turn(old(client.ma.policies), old(policy.Value()), me, late, client.parse, calls)
  {
    released := false;
    var seen := client.Observe(policy, calls);
    if seen.Ok? && !policy.deleting && !seen.value.present {
      var _ := client.Create(policy, me, late, calls);
      return;
    }
    client.ma.Interfere(late);
    if seen.Err? { return; }
    if policy.deleting {
      if !seen.value.present { return true; }
      var _ := client.Delete(policy, calls);
    } else if !seen.value.upToDate {
      var _ := client.Update(policy, me, calls);
    }
  }

  function Reconcile(w: PolicyWorld, r: nat, late: Policies, parse: Parser, calls: Calls, saved: Writes): PolicyWorld
    requires r in w.resources
  {
    var (ps, after) := Turn(w.objects, w.resources[r], r, late, parse, calls);
    Place(w, r, ps, after, saved)
  }

  lemma TurnFacts(ps: Policies, cr: PolicyCR, me: nat, late: Policies, parse: Parser, calls: Calls)
    ensures var now := late + ps;
            var (ps', after) := Turn(ps, cr, me, late, parse, calls);
            && Local(now, ps', cr.name)
            && (cr.name in now && cr.name !in ps' ==> cr.claimed && cr.name in ps)
            && (cr.name in now && cr.name in ps' ==> ps'[cr.name].origin == now[cr.name].origin)
            && (cr.name in ps && cr.name in ps' && ps'[cr.name] != ps[cr.name] ==> cr.claimed)
            && (cr.name !in now && cr.name in ps' ==> ps'[cr.name].origin == By(me))
            && (after.Some? && cr.claimed ==> after.value.claimed)
            && (after.Some? && after.value.claimed && !cr.claimed ==> cr.name !in ps && cr.name in ps')
  {
  }

  /** A reconcile is a step of the claim machine, even when an outsider adds the policy between
      Create's check and its write. */
  lemma PolicyActs(w: PolicyWorld, r: nat, late: Policies, parse: Parser, calls: Calls, saved: Writes)
    requires r in w.resources
    ensures Acts(w, Reconcile(w, r, late, parse, calls, saved), r)
  {
    var cr := w.resources[r];
    var (ps, after) := Turn(w.objects, cr, r, late, parse, calls);
    TurnFacts(w.objects, cr, r, late, parse, calls);
    LocalElsewhere(late + w.objects, ps, cr.name);
    PlaceActs(w, r, ps, after, saved);
  }

  /** It touches nothing but what the resource claims or makes. */
  lemma PolicyTouches(w: PolicyWorld, r: nat, late: Policies, parse: Parser, calls: Calls, saved: Writes)
    requires r in w.resources
    ensures Touches(w, Reconcile(w, r, late, parse, calls, saved), r, late)
  {
    var cr := w.resources[r];
    var (ps, after) := Turn(w.objects, cr, r, late, parse, calls);
    PolicyActs(w, r, late, parse, calls, saved);
    TurnFacts(w.objects, cr, r, late, parse, calls);
    PlaceTouches(w, r, late, ps, after, saved);
  }

  // ---------------------------------------------------------------- what is known before a reconcile

  /** It gets to the write of Create. */
  predicate Creates(w: PolicyWorld, r: nat, calls: Calls)
    requires r in w.resources
  {
    var cr := w.resources[r];
    && !cr.deleting && (cr.claimed ==> calls.list.Served?)
    && calls.relist.Served? && cr.name !in w.objects && Writable(cr.spec, calls)
  }

  /** An unclaimed resource's Create runs to its end and its claim is saved. */
  predicate Completes(w: PolicyWorld, r: nat, calls: Calls, saved: Writes)
    requires r in w.resources
  {
    Creates(w, r, calls) && !w.resources[r].claimed && saved.annotations && calls.add.Served?
  }

  /** It makes the policy. */
  predicate Makes(w: PolicyWorld, r: nat, late: Policies, calls: Calls)
    requires r in w.resources
  {
    Creates(w, r, calls) && w.resources[r].name !in late && calls.add.Applied()
  }

  /** It overwrites a policy that somebody just added, even if it does not hear of it. */
  predicate EditsLate(w: PolicyWorld, r: nat, late: Policies, calls: Calls)
    requires r in w.resources
  {
    var (name, spec) := (w.resources[r].name, w.resources[r].spec);
    Creates(w, r, calls) && name in late && calls.add.Applied() && late[name].body != Wanted(spec)
  }

  predicate Releases(w: PolicyWorld, r: nat, calls: Calls)
    requires r in w.resources
  {
    var cr := w.resources[r];
    cr.deleting && (cr.claimed ==> calls.list.Served? && cr.name !in w.objects)
  }

  lemma GainsIff(w: PolicyWorld, r: nat, late: Policies, parse: Parser, calls: Calls, saved: Writes)
    requires r in w.resources
    ensures Gains(w, Reconcile(w, r, late, parse, calls, saved), r) <==> Completes(w, r, calls, saved)
  {
  }

  /** The guards tell what becomes of the resource, of its policy, and of policies that others add
      meanwhile. */
  lemma OutcomeForeseen(w: PolicyWorld, r: nat, late: Policies, parse: Parser, calls: Calls, saved: Writes)
    requires r in w.resources
    ensures var (name, w') := (w.resources[r].name, Reconcile(w, r, late, parse, calls, saved));
            && (r !in w'.resources <==> Releases(w, r, calls))
            && (name in w'.objects && name !in w.objects && name !in late <==> Makes(w, r, late, calls))
            && forall n :: n in late && n !in w.objects ==>
                 n in w'.objects && (w'.objects[n] != late[n] <==> n == name && EditsLate(w, r, late, calls))
  {
    TurnFacts(w.objects, w.resources[r], r, late, parse, calls);
    LocalElsewhere(late + w.objects, Reconcile(w, r, late, parse, calls, saved).objects, w.resources[r].name);
  }

  // ---------------------------------------------------------------- one reconcile

  /** A reconcile keeps claims exclusive exactly unless its Create completes while another
      resource claims the name. */
  lemma PolicyExclusiveIff(w: PolicyWorld, r: nat, late: Policies, parse: Parser, calls: Calls, saved: Writes)
    requires r in w.resources && Exclusive(w)
    ensures Exclusive(Reconcile(w, r, late, parse, calls, saved)) <==>
            !(Completes(w, r, calls, saved) && Rivalled(w, r))
  {
    PolicyActs(w, r, late, parse, calls, saved);
    GainsIff(w, r, late, parse, calls, saved);
    ActsExclusiveIff(w, Reconcile(w, r, late, parse, calls, saved), r);
  }

  /** It keeps claims on their claimants' own policies exactly unless its Create completes on a
      policy that an outsider added after Create checked. */
  lemma PolicyRootedIff(w: PolicyWorld, r: nat, late: Policies, parse: Parser, calls: Calls, saved: Writes)
    requires r in w.resources && Exclusive(w) && Guarded(w) && Rooted(w)
    ensures var name := w.resources[r].name;
            Rooted(Reconcile(w, r, late, parse, calls, saved)) <==>
            !(Completes(w, r, calls, saved) && name in late && late[name].origin != By(r))
  {
    PolicyTouches(w, r, late, parse, calls, saved);
    GainsIff(w, r, late, parse, calls, saved);
    TouchesRootedIff(w, Reconcile(w, r, late, parse, calls, saved), r, late);
  }

  /** What a reconcile leaves of the resource, if it is not released. */
  lemma ResourceAfter(w: PolicyWorld, r: nat, late: Policies, parse: Parser, calls: Calls, saved: Writes)
    requires r in w.resources
    ensures var (cr, w') := (w.resources[r], Reconcile(w, r, late, parse, calls, saved));
            && w'.resources - {r} == w.resources - {r}
            && (r in w'.resources ==> w'.resources[r] == cr.(claimed := cr.claimed || Completes(w, r, calls, saved)))
  {
    PolicyActs(w, r, late, parse, calls, saved);
    GainsIff(w, r, late, parse, calls, saved);
  }

  /** A served and saved reconcile of a live resource with one form that parses ends with the policy up
      to date, whatever readable document was stored, exactly unless somebody else's policy has the
      name; then, and where nothing has drifted, it writes nothing. */
  lemma ServedReconcileSettles(w: PolicyWorld, r: nat, parse: Parser, calls: Calls)
    requires r in w.resources && !w.resources[r].deleting && Writable(w.resources[r].spec, calls)
    requires w.resources[r].spec.allowBucket == "" || w.resources[r].spec.rawPolicy == ""
    requires calls.list.Served? && calls.relist.Served? && calls.add.Served? && calls.valid
    requires parse(Wanted(w.resources[r].spec)).Some?
    requires w.resources[r].name in w.objects ==> parse(w.objects[w.resources[r].name].body).Some?
    ensures var (cr, w') := (w.resources[r], Reconcile(w, r, map[], parse, calls, Writes(true, true)));
            && r in w'.resources
            && (Observed(w'.objects, w'.resources[r], parse, calls) == Ok(Observation(true, true)) <==>
                cr.claimed || cr.name !in w.objects)
            && (!cr.claimed && cr.name in w.objects ==> w' == w)
            && (Observed(w.objects, cr, parse, calls) == Ok(Observation(true, true)) ==> w'.objects == w.objects)
  {
    assert map[] + w.objects == w.objects;
  }

  // ---------------------------------------------------------------- runs

  type PolicyEvent = Event<Document, Calls>

  ghost predicate Reconciles(w: PolicyWorld, e: PolicyEvent, w': PolicyWorld, parse: Parser) {
    e.Pass? && e.id in w.resources && w' == Reconcile(w, e.id, e.late, parse, e.calls, e.saved)
  }

  ghost predicate Concerns(w: PolicyWorld, e: PolicyEvent) { e.Pass? && e.id in w.resources }

  ghost function Machine(parse: Parser): Controller<Document, PolicySpec, Calls> {
    Controller(
      iset w, e, w' | Reconciles(w, e, w', parse) :: (w, e, w'),
      iset w, e | Concerns(w, e) && Completes(w, e.id, e.calls, e.saved) :: (w, e),
      iset w, e | Concerns(w, e) && Makes(w, e.id, e.late, e.calls) :: (w, e),
      iset w, e | Concerns(w, e) && EditsLate(w, e.id, e.late, e.calls) :: (w, e),
      iset w, e | Concerns(w, e) && Releases(w, e.id, e.calls) :: (w, e),
      iset{},
      iset{})
  }

  lemma MachineFollows(parse: Parser)
    ensures FollowsClosely(Machine(parse))
  {
    var c := Machine(parse);
    forall w, e, w' | (w, e, w') in c.passes
      ensures Touches(w, w', e.id, e.late) && (Gains(w, w', e.id) <==> (w, e) in c.completes) && Foresees(c, w, e, w')
    {
      PolicyTouches(w, e.id, e.late, parse, e.calls, e.saved);
      GainsIff(w, e.id, e.late, parse, e.calls, e.saved);
      OutcomeForeseen(w, e.id, e.late, parse, e.calls, e.saved);
    }
  }

  /** While claims are on their claimants' own policies, it changes or removes nobody else's, exactly
      unless it overwrites a policy that an outsider added meanwhile. */
  lemma PolicySparesOthersIff(w: PolicyWorld, r: nat, late: Policies, parse: Parser, calls: Calls, saved: Writes)
    requires r in w.resources && Rooted(w)
    ensures var name := w.resources[r].name;
            SparesOthers(w, late, Reconcile(w, r, late, parse, calls, saved), r) <==>
            !(EditsLate(w, r, late, calls) && late[name].origin != By(r))
  {
    MachineFollows(parse);
    SparesOthersIff(Machine(parse), w, Pass(r, late, calls, saved), Reconcile(w, r, late, parse, calls, saved));
  }

  /** Over a run, with outsiders as they please and deletions split from releases: claims stay
      exclusive exactly as long as no Create completes while another resource claims the name. */
  lemma PolicyRunExclusiveIff(parse: Parser, ws: seq<PolicyWorld>, es: seq<PolicyEvent>)
    requires Trace(Machine(parse), ws, es) && Exclusive(ws[0])
    ensures (forall i :: 0 <= i <= |es| ==> Exclusive(ws[i])) <==>
            (forall i :: 0 <= i < |es| ==> !Contested(Machine(parse), ws[i], es[i]))
  {
    MachineFollows(parse);
    NoRenames(Machine(parse), ws, es);
    RunExclusiveIff(Machine(parse), ws, es);
  }

  /** Over the same runs: claims stay on policies that their resources made exactly as long as no
      event uproots one. */
  lemma PolicyRunRootedIff(parse: Parser, ws: seq<PolicyWorld>, es: seq<PolicyEvent>)
    requires Trace(Machine(parse), ws, es) && Rooted(ws[0])
    ensures (forall i :: 0 <= i <= |es| ==> Rooted(ws[i])) <==>
            (forall i :: 0 <= i < |es| ==> !Uproots(Machine(parse), ws[i], es[i], ws[i + 1]))
  {
    MachineFollows(parse);
    RunRootedIff(Machine(parse), ws, es);
  }

  /** At every moment at most one Policy resource claims a policy name, and claimed policies are there
      but for those of leaving resources: whatever outsiders create, even between Create's check and
      its write, if they remove no claimed policy and release comes before a rival's turn. */
  lemma PolicyClaimsExclusive(parse: Parser, ws: seq<PolicyWorld>, es: seq<PolicyEvent>)
    requires Trace(Machine(parse), ws, es) && Protected(ws, es) && Orderly(ws, es)
    requires Guarded(ws[0]) && Exclusive(ws[0])
    ensures forall i :: 0 <= i <= |es| ==> Exclusive(ws[i]) && GuardedButLeaving(ws, es, i)
  {
    MachineFollows(parse);
    NoRenames(Machine(parse), ws, es);
    ClaimExclusivity(Machine(parse), ws, es);
  }

  /** Claims stay on policies that their resources made exactly as long as no Create completes on a
      late policy; until then a reconcile changes or removes nobody else's, exactly unless it
      overwrites a late one. */
  lemma PoliciesNotAdopted(parse: Parser, ws: seq<PolicyWorld>, es: seq<PolicyEvent>)
    requires Trace(Machine(parse), ws, es) && Respected(ws, es) && Orderly(ws, es)
    requires Guarded(ws[0]) && Exclusive(ws[0]) && Rooted(ws[0])
    ensures (forall i :: 0 <= i <= |es| ==> Rooted(ws[i])) <==>
            (forall i :: 0 <= i < |es| ==> !TakesOver(Machine(parse), ws[i], es[i]))
    ensures forall i :: 0 <= i < |es| && es[i].Pass? && Rooted(ws[i]) ==>
              (SparesOthers(ws[i], es[i].late, ws[i + 1], es[i].id) <==> !EditsOthers(Machine(parse), ws[i], es[i]))
  {
    MachineFollows(parse);
    NoRenames(Machine(parse), ws, es);
    NonAdoption(Machine(parse), ws, es);
  }

  /** Deletion followed at once by release: the policy and the resource are gone together, and no
      claim outlives its policy. */
  lemma DeleteThenReleaseStaysGuarded(w: PolicyWorld, r: nat, parse: Parser, calls: Calls, saved: Writes)
    requires r in w.resources && w.resources[r].deleting && w.resources[r].claimed
    requires w.resources[r].name in w.objects && calls.list.Served? && calls.remove.Served?
    requires Observed(w.objects, w.resources[r], parse, calls).Ok?
    ensures var mid := Reconcile(w, r, map[], parse, calls, saved);
            && r in mid.resources
            && var w' := Reconcile(mid, r, map[], parse, calls, saved);
               && w'.objects == w.objects - {w.resources[r].name} && w'.resources == w.resources - {r}
               && (Guarded(w) && Exclusive(w) ==> Guarded(w') && Exclusive(w'))
  {
    var mid := Reconcile(w, r, map[], parse, calls, saved);
    var w' := Reconcile(mid, r, map[], parse, calls, saved);
    assert map[] + w.objects == w.objects && map[] + mid.objects == mid.objects;
    assert Claims(w, r, w.resources[r].name);
    assert forall s, n :: Claims(w', s, n) ==> Claims(w, s, n) && s != r;
  }

  /** A policy that an outsider adds between Create's check and its write is overwritten. */
  lemma LatePolicyIsOverwritten(w: PolicyWorld, r: nat, other: Object<Document>, parse: Parser, calls: Calls)
    requires r in w.resources && !w.resources[r].claimed && !w.resources[r].deleting
    requires w.resources[r].name !in w.objects && calls.relist.Served? && calls.add.Served?
    requires Writable(w.resources[r].spec, calls)
    ensures var cr := w.resources[r];
            var w' := Reconcile(w, r, map[cr.name := other], parse, calls, Writes(true, true));
            && Claims(w', r, cr.name)
            && w'.objects[cr.name] == Object(other.origin, Wanted(cr.spec))
  {
  }
}
