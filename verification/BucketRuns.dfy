/** Runs of the Bucket controller over many resources and one server: the claim protocol, and
    the life of the bucket name under admission and lost status writes. */
module BucketRuns {
  import opened Outcomes
  import opened Ownership
  import opened BucketController

  type BucketWorld = World<BucketBody, BucketSpec>

  // ---------------------------------------------------------------- the managed reconciler

  /** One reconcile of resource `me`: the server after it, and the resource in memory when it
      ends, None if it is released. `late` are buckets that outsiders make after Observe looked. */
  function Turn(bs: Buckets, cr: BucketCR, me: nat, late: Buckets, calls: Calls): (Buckets, Option<BucketCR>) {
    var (seen, outcome) := Observed(bs, cr, calls);
    var now := late + bs;
    if outcome.Err? then (now, Some(seen))
    else if cr.deleting then
      if outcome.value.present then (AfterDelete(now, seen, calls).0, Some(seen)) else (now, None)
    else if !outcome.value.present then
      var (bs', cr', _) := AfterCreate(now, seen, me, calls);
      (bs', Some(cr'))
    else if outcome.value.upToDate then (now, Some(seen))
    else (AfterUpdate(now, seen, calls).0, Some(seen))
  }

  function Reconcile(w: BucketWorld, r: nat, late: Buckets, calls: Calls, saved: Writes): BucketWorld
    requires r in w.resources
  {
    var (bs, after) := Turn(w.objects, w.resources[r], r, late, calls);
    Place(w, r, bs, after, saved)
  }

  /** The client's methods, driven by the managed reconciler, make this turn. */
  method ReconcileOnce(client: BucketClient, bucket: Bucket, me: nat, late: Buckets,
          calls: Calls) returns (released: bool)
    modifies client.mc, bucket
    ensures (client.mc.buckets, if released then None else Some(bucket.Value())) ==
            Turn(old(client.mc.buckets), old(bucket.Value()), me, late, calls)
  {
    released := false;
    var seen := client.Observe(bucket, calls);
    client.mc.Interfere(late);
    if seen.Err? { return; }
    if bucket.deleting {
      if !seen.value.present { return true; }
      var _ := client.Delete(bucket, calls);
    } else if !seen.value.present {
      var _ := client.Create(bucket, me, calls);
    } else if !seen.value.upToDate {
      var _ := client.Update(bucket, calls);
    }
  }

  // ---------------------------------------------------------------- refinement

  /** What a turn can do: change the resource's own bucket, and that only under its claim or by
      making it; gain the claim only on a bucket that was not there. */
  lemma TurnFacts(bs: Buckets, cr: BucketCR, me: nat, late: Buckets, calls: Calls)
    ensures var now := late + bs;
            var (bs', after) := Turn(bs, cr, me, late, calls);
            && Local(now, bs', cr.name)
            && (cr.name in now && cr.name !in bs' ==> cr.claimed && cr.name in bs)
            && (cr.name in now && cr.name in bs' ==> bs'[cr.name].origin == now[cr.name].origin)
            && (cr.name in bs && cr.name in bs' && bs'[cr.name] != bs[cr.name] ==> cr.claimed)
            && (cr.name !in now && cr.name in bs' ==> bs'[cr.name].origin == By(me))
            && (after.Some? && cr.claimed ==> after.value.claimed)
            && (after.Some? && after.value.claimed && !cr.claimed ==> cr.name !in bs && cr.name in bs')
            && (after.Some? ==> after.value.status == cr.status || (after.value.status == cr.name && cr.claimed))
  {
    var (seen, outcome) := Observed(bs, cr, calls);
    var now := late + bs;
    ObservedFacts(bs, cr, calls);
    if outcome.Ok? {
      if cr.deleting {
        DeleteIsLocal(now, seen, calls);
      } else if !outcome.value.present {
        CreateKeeps(now, seen, me, calls);
      } else {
        UpdateKeeps(now, seen, me, calls);
      }
    }
  }

  /** A reconcile is a step of the claim machine, whatever outsiders make meanwhile, whichever
      call fails and whatever is not saved. */
  lemma {:induction false} BucketActs(w: BucketWorld, r: nat, late: Buckets, calls: Calls, saved: Writes)
    requires r in w.resources
    ensures Acts(w, Reconcile(w, r, late, calls, saved), r)
  {
    var cr := w.resources[r];
    var (bs, after) := Turn(w.objects, cr, r, late, calls);
    TurnFacts(w.objects, cr, r, late, calls);
    LocalElsewhere(late + w.objects, bs, cr.name);
    PlaceActs(w, r, bs, after, saved);
  }

  /** It touches nothing but what the resource claims or makes. */
  lemma {:induction false} BucketTouches(w: BucketWorld, r: nat, late: Buckets, calls: Calls, saved: Writes)
    requires r in w.resources
    ensures Touches(w, Reconcile(w, r, late, calls, saved), r, late)
  {
    var cr := w.resources[r];
    var (bs, after) := Turn(w.objects, cr, r, late, calls);
    BucketActs(w, r, late, calls, saved);
    TurnFacts(w.objects, cr, r, late, calls);
    PlaceTouches(w, r, late, bs, after, saved);
  }

  // ---------------------------------------------------------------- what is known before a reconcile

  /** It runs Create. */
  predicate Creates(w: BucketWorld, r: nat, calls: Calls)
    requires r in w.resources
  {
    !w.resources[r].deleting && calls.look.Served? && w.resources[r].name !in w.objects
  }

  /** An unclaimed resource's Create runs to its end and its claim is saved. */
  predicate Completes(w: BucketWorld, r: nat, late: Buckets, calls: Calls, saved: Writes)
    requires r in w.resources
  {
    var cr := w.resources[r];
    Creates(w, r, calls) && !cr.claimed && saved.annotations && CreateRuns(late + w.objects, cr, calls)
  }

  /** It makes the bucket. */
  predicate Makes(w: BucketWorld, r: nat, late: Buckets, calls: Calls)
    requires r in w.resources
  {
    Creates(w, r, calls) && w.resources[r].name !in late && calls.make.Applied()
  }

  /** It finds a bucket that somebody just made and gives it another policy or other tags. */
  predicate EditsLate(w: BucketWorld, r: nat, late: Buckets, calls: Calls)
    requires r in w.resources
  {
    var (name, spec) := (w.resources[r].name, w.resources[r].spec);
    && Creates(w, r, calls) && name in late && calls.recheck.Served?
    && ((spec.policy.Some? && calls.setPolicy.Applied() && late[name].body.policy != spec.policy.value) ||
        ((spec.policy.Some? ==> calls.setPolicy.Served?)
         && spec.tags.Some? && calls.tagsParse && calls.setTags.Applied() && late[name].body.tags != spec.tags))
  }

  predicate Releases(w: BucketWorld, r: nat, calls: Calls)
    requires r in w.resources
  {
    w.resources[r].deleting && calls.look.Served? && w.resources[r].name !in w.objects
  }

  lemma GainsIff(w: BucketWorld, r: nat, late: Buckets, calls: Calls, saved: Writes)
    requires r in w.resources
    ensures Gains(w, Reconcile(w, r, late, calls, saved), r) <==> Completes(w, r, late, calls, saved)
  {
  }

  /** The guards tell whether the resource is released and its bucket made. */
  lemma OwnOutcome(w: BucketWorld, r: nat, late: Buckets, calls: Calls, saved: Writes)
    requires r in w.resources
    ensures var (name, w') := (w.resources[r].name, Reconcile(w, r, late, calls, saved));
            && (r !in w'.resources <==> Releases(w, r, calls))
            && (name in w'.objects && name !in w.objects && name !in late <==> Makes(w, r, late, calls))
  {
    CreateKeeps(late + w.objects, w.resources[r], r, calls);
    TurnFacts(w.objects, w.resources[r], r, late, calls);
  }

  /** Create on a bucket that is there changes it exactly so. */
  lemma CreateEdits(now: Buckets, cr: BucketCR, me: nat, calls: Calls)
    requires cr.name in now
    ensures var (spec, body, bs') := (cr.spec, now[cr.name].body, AfterCreate(now, cr, me, calls).0);
            && cr.name in bs'
            && (bs'[cr.name] != now[cr.name] <==>
                && calls.recheck.Served?
                && ((spec.policy.Some? && calls.setPolicy.Applied() && body.policy != spec.policy.value) ||
                    ((spec.policy.Some? ==> calls.setPolicy.Served?)
                     && spec.tags.Some? && calls.tagsParse && calls.setTags.Applied() && body.tags != spec.tags)))
  {
    var (spec, bs1) := (cr.spec, ApplyPolicy(now, cr, calls).0);
    assert Make(now, cr.name, me, calls.make).0 == now;
    assert bs1[cr.name].body == if spec.policy.Some? && calls.setPolicy.Applied()
                                then now[cr.name].body.(policy := spec.policy.value) else now[cr.name].body;
  }

  /** The guards tell whether a bucket that others make meanwhile is edited; it always stays. */
  lemma {:induction false} LateOutcome(w: BucketWorld, r: nat, late: Buckets, calls: Calls, saved: Writes, n: string)
    requires r in w.resources && n in late && n !in w.objects
    ensures var w' := Reconcile(w, r, late, calls, saved);
            n in w'.objects && (w'.objects[n] != late[n] <==> n == w.resources[r].name && EditsLate(w, r, late, calls))
  {
    var (cr, now) := (w.resources[r], late + w.objects);
    TurnFacts(w.objects, cr, r, late, calls);
    LocalElsewhere(now, Reconcile(w, r, late, calls, saved).objects, cr.name);
    if n == cr.name { CreateEdits(now, cr, r, calls); }
  }

  // ---------------------------------------------------------------- one reconcile

  /** A reconcile keeps claims exclusive exactly unless its Create completes while another
      resource claims the name. */
  lemma BucketExclusiveIff(w: BucketWorld, r: nat, late: Buckets, calls: Calls, saved: Writes)
    requires r in w.resources && Exclusive(w)
    ensures Exclusive(Reconcile(w, r, late, calls, saved)) <==> !(Completes(w, r, late, calls, saved) && Rivalled(w, r))
  {
    BucketActs(w, r, late, calls, saved);
    GainsIff(w, r, late, calls, saved);
    ActsExclusiveIff(w, Reconcile(w, r, late, calls, saved), r);
  }

  /** It keeps claims on their claimants' own buckets exactly unless its Create completes on a
      bucket that an outsider made after Observe looked. */
  lemma BucketRootedIff(w: BucketWorld, r: nat, late: Buckets, calls: Calls, saved: Writes)
    requires r in w.resources && Exclusive(w) && Guarded(w) && Rooted(w)
    ensures var name := w.resources[r].name;
            Rooted(Reconcile(w, r, late, calls, saved)) <==>
            !(Completes(w, r, late, calls, saved) && name in late && late[name].origin != By(r))
  {
    BucketTouches(w, r, late, calls, saved);
    GainsIff(w, r, late, calls, saved);
    TouchesRootedIff(w, Reconcile(w, r, late, calls, saved), r, late);
  }

  /** What a reconcile leaves of the resource, if it is not released: the claim is gained exactly by a
      completed Create, and the status names the bucket that Observe found there and claimed, if
      they are saved. */
  lemma ResourceAfter(w: BucketWorld, r: nat, late: Buckets, calls: Calls, saved: Writes)
    requires r in w.resources
    ensures var (cr, w') := (w.resources[r], Reconcile(w, r, late, calls, saved));
            var observed := calls.look.Served? && cr.name in w.objects && cr.claimed;
            && w'.resources - {r} == w.resources - {r}
            && (r in w'.resources ==>
                  w'.resources[r] == cr.(claimed := cr.claimed || Completes(w, r, late, calls, saved),
                                         status := if observed && saved.status then cr.name else cr.status))
  {
    BucketActs(w, r, late, calls, saved);
    GainsIff(w, r, late, calls, saved);
  }

  /** A served and saved reconcile of a live resource ends with the bucket up to date, exactly unless
      somebody else's bucket has the name; then, and where nothing has drifted, it writes nothing. */
  lemma ServedReconcileSettles(w: BucketWorld, r: nat)
    requires r in w.resources && !w.resources[r].deleting
    ensures var (cr, w') := (w.resources[r], Reconcile(w, r, map[], ALL_SERVED, Writes(true, true)));
            && r in w'.resources
            && (Observed(w'.objects, w'.resources[r], ALL_SERVED).1 == Ok(Observation(true, true)) <==>
                cr.claimed || cr.name !in w.objects)
            && (!cr.claimed && cr.name in w.objects ==> w' == w)
            && (Observed(w.objects, cr, ALL_SERVED).1 == Ok(Observation(true, true)) ==> w'.objects == w.objects)
  {
    var cr := w.resources[r];
    assert map[] + w.objects == w.objects;
    if cr.name !in w.objects {
      CreateSettles(w.objects, cr, r, ALL_SERVED);
    } else if cr.claimed {
      var seen := cr.(status := cr.name);
      assert UpdateMany(w.objects, seen, []) == w.objects;
      DriftRepair(w.objects, seen, [], ALL_SERVED);
    }
  }

  // ---------------------------------------------------------------- runs

  type BucketEvent = Event<BucketBody, Calls>

  ghost predicate Reconciles(w: BucketWorld, e: BucketEvent, w': BucketWorld) {
    e.Pass? && e.id in w.resources && w' == Reconcile(w, e.id, e.late, e.calls, e.saved)
  }

  ghost predicate Concerns(w: BucketWorld, e: BucketEvent) { e.Pass? && e.id in w.resources }

  /** A bucket can be renamed while its status is empty. */
  ghost predicate Renames(w: BucketWorld, r: nat, name: string) {
    r in w.resources && w.resources[r].status == "" && name != w.resources[r].name
  }

  ghost function Machine(): Controller<BucketBody, BucketSpec, Calls> {
    Controller(
      iset w, e, w' | Reconciles(w, e, w') :: (w, e, w'),
      iset w, e | Concerns(w, e) && Completes(w, e.id, e.late, e.calls, e.saved) :: (w, e),
      iset w, e | Concerns(w, e) && Makes(w, e.id, e.late, e.calls) :: (w, e),
      iset w, e | Concerns(w, e) && EditsLate(w, e.id, e.late, e.calls) :: (w, e),
      iset w, e | Concerns(w, e) && Releases(w, e.id, e.calls) :: (w, e),
      iset w, r: nat, name | Renames(w, r, name) :: (w, r, name),
      iset{})
  }

  lemma OutcomeForeseen(w: BucketWorld, e: BucketEvent, w': BucketWorld)
    requires Reconciles(w, e, w')
    ensures Foresees(Machine(), w, e, w')
  {
    OwnOutcome(w, e.id, e.late, e.calls, e.saved);
    forall n | n in e.late && n !in w.objects
      ensures n in w'.objects
      ensures w'.objects[n] != e.late[n] <==> n == w.resources[e.id].name && EditsLate(w, e.id, e.late, e.calls)
    {
      LateOutcome(w, e.id, e.late, e.calls, e.saved, n);
    }
  }

  lemma MachineFollows()
    ensures FollowsClosely(Machine())
  {
    var c := Machine();
    forall w, e, w' | (w, e, w') in c.passes
      ensures Touches(w, w', e.id, e.late) && (Gains(w, w', e.id) <==> (w, e) in c.completes) && Foresees(c, w, e, w')
    {
      BucketTouches(w, e.id, e.late, e.calls, e.saved);
      GainsIff(w, e.id, e.late, e.calls, e.saved);
      OutcomeForeseen(w, e, w');
    }
  }

  /** While claims are on their claimants' own buckets, it changes or removes nobody else's, exactly
      unless it edits a bucket that an outsider made after Observe looked. */
  lemma {:induction false} BucketSparesOthersIff(w: BucketWorld, r: nat, late: Buckets, calls: Calls, saved: Writes)
    requires r in w.resources && Rooted(w)
    ensures var name := w.resources[r].name;
            SparesOthers(w, late, Reconcile(w, r, late, calls, saved), r) <==>
            !(EditsLate(w, r, late, calls) && late[name].origin != By(r))
  {
    MachineFollows();
    SparesOthersIff(Machine(), w, Pass(r, late, calls, saved), Reconcile(w, r, late, calls, saved));
  }

  /** Over a run, with outsiders as they please and deletions split from releases: claims stay
      exclusive exactly as long as no Create completes while another resource claims the name and
      no claimed resource is renamed to a name that another one claims. */
  lemma BucketRunExclusiveIff(ws: seq<BucketWorld>, es: seq<BucketEvent>)
    requires Trace(Machine(), ws, es) && Exclusive(ws[0])
    ensures (forall i :: 0 <= i <= |es| ==> Exclusive(ws[i])) <==>
            (forall i :: 0 <= i < |es| ==> !Contested(Machine(), ws[i], es[i]) && !Collides(ws[i], es[i]))
  {
    MachineFollows();
    RunExclusiveIff(Machine(), ws, es);
  }

  /** Over the same runs: claims stay on buckets that their resources made exactly as long as no
      event uproots one. */
  lemma BucketRunRootedIff(ws: seq<BucketWorld>, es: seq<BucketEvent>)
    requires Trace(Machine(), ws, es) && Rooted(ws[0])
    ensures (forall i :: 0 <= i <= |es| ==> Rooted(ws[i])) <==>
            (forall i :: 0 <= i < |es| ==> !Uproots(Machine(), ws[i], es[i], ws[i + 1]))
  {
    MachineFollows();
    RunRootedIff(Machine(), ws, es);
  }

  /** At every moment at most one Bucket resource claims a bucket name, and claimed buckets are there
      but for those of leaving resources: whatever outsiders create, even between Observe and
      Create, if they remove no claimed bucket, no claimed resource is renamed to a bucket that is
      missing or claimed, and release comes before a rival's turn. */
  lemma BucketClaimsExclusive(ws: seq<BucketWorld>, es: seq<BucketEvent>)
    requires Trace(Machine(), ws, es) && Protected(ws, es) && Steady(ws, es) && Orderly(ws, es)
    requires Guarded(ws[0]) && Exclusive(ws[0])
    ensures forall i :: 0 <= i <= |es| ==> Exclusive(ws[i]) && GuardedButLeaving(ws, es, i)
  {
    MachineFollows();
    ClaimExclusivity(Machine(), ws, es);
  }

  /** Claims stay on buckets that their resources made exactly as long as no Create completes on a
      late bucket and no claimed resource is renamed to somebody else's; until then a reconcile
      changes, retags or removes nobody else's, exactly unless it edits a late one. */
  lemma BucketsNotAdopted(ws: seq<BucketWorld>, es: seq<BucketEvent>)
    requires Trace(Machine(), ws, es) && Respected(ws, es) && Steady(ws, es) && Orderly(ws, es)
    requires Guarded(ws[0]) && Exclusive(ws[0]) && Rooted(ws[0])
    ensures (forall i :: 0 <= i <= |es| ==> Rooted(ws[i])) <==>
            (forall i :: 0 <= i < |es| ==> !TakesOver(Machine(), ws[i], es[i]) && !Grabs(ws[i], es[i]))
    ensures forall i :: 0 <= i < |es| && es[i].Pass? && Rooted(ws[i]) ==>
              (SparesOthers(ws[i], es[i].late, ws[i + 1], es[i].id) <==> !EditsOthers(Machine(), ws[i], es[i]))
  {
    MachineFollows();
    NonAdoption(Machine(), ws, es);
  }

  /** Deletion followed at once by release: the bucket and the resource are gone together, and no
      claim outlives its bucket. */
  lemma DeleteThenReleaseStaysGuarded(w: BucketWorld, r: nat, saved: Writes)
    requires r in w.resources && w.resources[r].deleting && w.resources[r].claimed
    requires w.resources[r].name in w.objects
    requires w.resources[r].spec.deleteAll || w.objects[w.resources[r].name].body.empty
    ensures var mid := Reconcile(w, r, map[], ALL_SERVED, saved);
            && r in mid.resources
            && var w' := Reconcile(mid, r, map[], ALL_SERVED, saved);
               && w'.objects == w.objects - {w.resources[r].name} && w'.resources == w.resources - {r}
               && (Guarded(w) && Exclusive(w) ==> Guarded(w') && Exclusive(w'))
  {
    var cr := w.resources[r];
    var mid := Reconcile(w, r, map[], ALL_SERVED, saved);
    var w' := Reconcile(mid, r, map[], ALL_SERVED, saved);
    assert map[] + w.objects == w.objects && map[] + mid.objects == mid.objects;
    DeleteRemovesIff(w.objects, cr.(status := cr.name), true);
    assert Claims(w, r, cr.name);
    assert forall s, n :: Claims(w', s, n) ==> Claims(w, s, n) && s != r;
  }

  /** Deletion and release are two reconciles. A rival that makes the bucket in between claims
      it too, and the first resource then removes the rival's bucket as its own. */
  lemma SplitDeletionRemovesRivalsBucket(name: string, spec: BucketSpec)
    requires spec.policy.None? && spec.tags.None?
    ensures var leaving, rival := Resource(name, spec, true, name, true), Resource(name, spec, false, "", false);
            var own := Object(By(0), BucketBody("", None, true));
            var w0: BucketWorld := World(map[name := own], map[0 := leaving, 1 := rival]);
            var saved := Writes(true, true);
            var w1 := Reconcile(w0, 0, map[], ALL_SERVED, saved);
            && Exclusive(w0) && Rooted(w0) && 1 in w1.resources
            && var w2 := Reconcile(w1, 1, map[], ALL_SERVED, saved);
            && !Exclusive(w2) && name in w2.objects && w2.objects[name].origin == By(1) && 0 in w2.resources
            && name !in Reconcile(w2, 0, map[], ALL_SERVED, saved).objects
  {
    var leaving, rival := Resource(name, spec, true, name, true), Resource(name, spec, false, "", false);
    var w0: BucketWorld := World(map[name := Object(By(0), BucketBody("", None, true))], map[0 := leaving, 1 := rival]);
    var w1 := Reconcile(w0, 0, map[], ALL_SERVED, Writes(true, true));
    var w2 := Reconcile(w1, 1, map[], ALL_SERVED, Writes(true, true));
    assert map[] + w0.objects == w0.objects && map[] + w1.objects == w1.objects && map[] + w2.objects == w2.objects;
    assert w1.objects == map[] && w2.objects == map[name := Object(By(1), BucketBody("", None, true))];
    assert Claims(w2, 0, name) && Claims(w2, 1, name);
  }

  /** An outsider's bucket that appears between Observe and Create is taken over and claimed. */
  lemma LateBucketIsAdopted(w: BucketWorld, r: nat, other: Object<BucketBody>)
    requires r in w.resources && !w.resources[r].deleting && w.resources[r].name !in w.objects
    ensures var n := w.resources[r].name;
            var w' := Reconcile(w, r, map[n := other], ALL_SERVED, Writes(true, true));
            Claims(w', r, n) && n in w'.objects && w'.objects[n].origin == other.origin
  {
  }

  // ---------------------------------------------------------------- the life of the name

  /** A resource as the API server keeps it. */
  datatype Stored = Stored(meta: string, spec: BucketSpec, claimed: bool, status: string, deleting: bool) {
    function Name(): string { GetBucketName(meta, spec) }
    function Value(): BucketCR { Resource(Name(), spec, claimed, status, deleting) }
  }

  /** The admission webhook's answer to an edit. */
  function ValidateUpdate(before: Stored, after: Stored): Result<()> {
    if before.status != "" && after.Name() != before.status then Err(Invalid)
    else if before.status != "" && after.spec.region != before.spec.region then Err(Invalid)
    else if after.spec.provider == "" then Err(Invalid)
    else Ok(())
  }

  /** A user's edit that is admitted, or a reconcile whose writes may be lost. */
  ghost predicate LifeStep(s: Stored, s': Stored) {
    || (s' == s.(spec := s'.spec, deleting := s'.deleting) && ValidateUpdate(s, s').Ok?)
    || (exists bs, r: nat, late, calls, saved ::
          var w := World(bs, map[r := s.Value()]);
          var w' := Reconcile(w, r, late, calls, saved);
          r in w'.resources && s' == s.(claimed := w'.resources[r].claimed, status := w'.resources[r].status))
  }

  ghost predicate Life(ss: seq<Stored>) {
    ss != [] && forall i :: 0 <= i < |ss| - 1 ==> LifeStep(ss[i], ss[i + 1])
  }

  lemma ReconcileStatus(bs: Buckets, r: nat, cr: BucketCR, late: Buckets, calls: Calls, saved: Writes)
    ensures var w' := Reconcile(World(bs, map[r := cr]), r, late, calls, saved);
            r in w'.resources ==>
              && w'.resources[r].status in {cr.status, cr.name}
              && (w'.resources[r].status != cr.status ==> cr.claimed)
              && (cr.claimed ==> w'.resources[r].claimed)
  {
  }

  ghost predicate StatusNames(s: Stored) { s.status == "" || s.status == s.Name() }

  /** Whatever name and region an observed resource has, it has later. */
  ghost predicate Frozen(s: Stored, s': Stored) {
    s.status != "" ==> s'.status == s.status && s'.Name() == s.Name() && s'.spec.region == s.spec.region
  }

  /** The status is empty or names the resource's bucket; once set, name, region and status
      stay for good, through every admitted edit and every lost write. */
  lemma {:induction false} NameFrozenOnceObserved(ss: seq<Stored>)
    requires Life(ss) && StatusNames(ss[0])
    ensures forall i :: 0 <= i < |ss| ==> StatusNames(ss[i])
    ensures forall i, j :: 0 <= i <= j < |ss| ==> Frozen(ss[i], ss[j])
  {
    forall i, j | 0 <= i <= j < |ss| ensures StatusNames(ss[j]) && Frozen(ss[i], ss[j]) {
      FrozenBetween(ss, i, j);
    }
  }

  lemma {:induction false} FrozenBetween(ss: seq<Stored>, i: nat, j: nat)
    requires Life(ss) && StatusNames(ss[0]) && i <= j < |ss|
    ensures StatusNames(ss[j]) && Frozen(ss[i], ss[j])
    decreases j
  {
    if j == 0 {
    } else {
      FrozenBetween(ss, if i < j then i else j - 1, j - 1);
      LifeStepKeepsName(ss[j - 1], ss[j]);
    }
  }

  lemma LifeStepKeepsName(s: Stored, s': Stored)
    requires LifeStep(s, s') && StatusNames(s)
    ensures StatusNames(s') && Frozen(s, s')
  {
    if !(s' == s.(spec := s'.spec, deleting := s'.deleting) && ValidateUpdate(s, s').Ok?) {
      var bs, r: nat, late, calls, saved :|
        var w := World(bs, map[r := s.Value()]);
        var w' := Reconcile(w, r, late, calls, saved);
        r in w'.resources && s' == s.(claimed := w'.resources[r].claimed, status := w'.resources[r].status);
      ReconcileStatus(bs, r, s.Value(), late, calls, saved);
    }
  }

  /** Every deletion goes to the name that the same reconcile saw as there and claimed, and to
      no other, whatever name an earlier status write left. */
  lemma DeleteRemovesObservedName(w: BucketWorld, r: nat, late: Buckets, calls: Calls, saved: Writes)
    requires r in w.resources && w.resources[r].deleting
    ensures var (name, now) := (w.resources[r].name, late + w.objects);
            var w' := Reconcile(w, r, late, calls, saved);
            w'.objects != now ==> Claims(w, r, name) && name in w.objects && w'.objects - {name} == now - {name}
  {
  }

  /** The webhook admits an edit of an observed bucket exactly if name and region stay, and any edit of
      another one, always with a provider. */
  lemma EditAdmittedIff(s: Stored, s': Stored)
    requires StatusNames(s)
    ensures ValidateUpdate(s, s').Ok? <==>
            && s'.spec.provider != ""
            && (s.status != "" ==> s'.Name() == s.Name() && s'.spec.region == s.spec.region)
  {
  }

  /** An edit that changes the bucket's name is admitted exactly while the status is empty, which is
      when the machine takes it. */
  lemma RenameAdmittedIff(w: BucketWorld, r: nat, s: Stored, spec: BucketSpec)
    requires r in w.resources && w.resources[r] == s.Value() && StatusNames(s)
    requires GetBucketName(s.meta, spec) != s.Name() && spec.provider != ""
    ensures ValidateUpdate(s, s.(spec := spec)).Ok? <==> s.status == ""
    ensures ValidateUpdate(s, s.(spec := spec)).Ok? <==> (w, r, GetBucketName(s.meta, spec)) in Machine().admits
  {
  }

  /** So a claimed resource that was not observed yet can be renamed to a bucket that another one
      claims, and both claim it. */
  lemma EarlyRenameSharesClaim(w: BucketWorld, r: nat, s: Stored, spec: BucketSpec)
    requires r in w.resources && w.resources[r] == s.Value() && s.claimed && s.status == "" && spec.provider != ""
    requires TakenBut(w, r, GetBucketName(s.meta, spec)) && Exclusive(w)
    ensures ValidateUpdate(s, s.(spec := spec)).Ok?
    ensures !Exclusive(Renamed(w, r, GetBucketName(s.meta, spec)))
  {
    RenameExclusiveIff(w, r, GetBucketName(s.meta, spec));
  }

  /** And one that was renamed to an outsider's bucket deletes it as its own. */
  lemma EarlyRenameCarriesClaim(s: Stored, name: string, other: Object<BucketBody>)
    requires s.claimed && s.status == "" && s.spec.provider != "" && name != "" && name != s.Name()
    requires s.deleting && other.origin == Outsider && other.body.empty
    requires s.spec.policy.None? && s.spec.tags.None?
    ensures var s' := s.(spec := s.spec.(bucketName := name));
            var w: BucketWorld := World(map[name := other], map[0 := s'.Value()]);
            && ValidateUpdate(s, s').Ok?
            && Reconcile(w, 0, map[], ALL_SERVED, Writes(true, true)).objects == map[]
  {
    var w := World(map[name := other], map[0 := s.(spec := s.spec.(bucketName := name)).Value()]);
    assert map[] + w.objects == w.objects;
  }
}
