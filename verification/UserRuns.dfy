/** Runs of the User controller: convergence of the attached policies through aborted Updates, and
    the claim protocol over many resources. */
module UserRuns {
  import opened Outcomes
  import opened Sequences
  import opened Ownership
  import opened PolicyNames
  import opened UserController

  // ---------------------------------------------------------------- attaching from nothing

  ghost predicate WellFormed(names: seq<string>) { CommaFree(names) && "" !in names }

  lemma {:induction false} AddMissingMembers(attached: seq<string>, names: seq<string>)
    ensures forall name :: name in AddMissing(attached, names) <==> name in attached || name in names
  {
    if names == [] {
    } else {
      AddMissingMembers(attached, names[..|names| - 1]);
      assert names == names[..|names| - 1] + [names[|names| - 1]];
    }
  }

  /** Attaching to a user without policies stores the wanted list as it is, exactly if no name in
      it repeats. */
  lemma {:induction false} AddMissingExactIff(names: seq<string>)
    ensures |AddMissing([], names)| <= |names|
    ensures AddMissing([], names) == names <==> NoDuplicates(names)
    ensures |AddMissing([], names)| == |names| ==> NoDuplicates(names)
  {
    if names == [] {
    } else {
      var init, last := names[..|names| - 1], names[|names| - 1];
      AddMissingExactIff(init);
      AddMissingMembers([], init);
      assert names == init + [last];
      if NoDuplicates(names) {
        assert forall i :: 0 <= i < |init| ==> init[i] == names[i];
        assert last !in init;
      }
    }
  }

  // ---------------------------------------------------------------- what the methods answer

  /** The user has the wanted policies in their order; nil stands for none. */
  ghost predicate PoliciesAgree(us: Users, cr: UserCR)
    requires cr.name in us
  {
    cr.spec.policies == if us[cr.name].body.attached == [] then None else Some(us[cr.name].body.attached)
  }

  lemma {:induction false} EqualPoliciesAgree(us: Users, cr: UserCR)
    requires cr.name in us && WellFormed(us[cr.name].body.attached)
    ensures EqualPolicies(Join(us[cr.name].body.attached), cr.spec.policies) <==> PoliciesAgree(us, cr)
  {
    var attached := us[cr.name].body.attached;
    DecodeOfJoin(attached);
    if attached != [] {
      SplitOfJoin(attached);
      assert attached[0] in attached;
    }
  }

  /** All that Observe can answer: absent if the resource never had the user or it is gone, in which
      case the status is cleared; unanswered; drift in the policies or, for a live resource, a
      secret that does not work; up to date. */
  lemma {:induction false} ObserveAnswers(us: Users, cr: UserCR, calls: Calls)
    requires cr.name in us ==> WellFormed(us[cr.name].body.attached)
    ensures var (seen, r) := Observed(us, cr, calls);
            var looks := cr.claimed || cr.status != "";
            var there := looks && calls.list.Served? && cr.name in us;
            var readable := calls.readSecret.Served? && cr.spec.connection.Some?;
            && (r == Ok(Observation(false, false)) <==> !looks || (calls.list.Served? && cr.name !in us))
            && (r == Err(Transient) <==>
                (looks && !calls.list.Served?) || (there && PoliciesAgree(us, cr) && !cr.deleting && !readable))
            && (r == Ok(Observation(true, false)) <==>
                there && (!PoliciesAgree(us, cr) || (!cr.deleting && readable && !calls.works)))
            && (r == Ok(Observation(true, true)) <==>
                there && PoliciesAgree(us, cr) && (cr.deleting || (readable && calls.works)))
            && seen == (if !looks then cr
                        else if calls.list.Served? && cr.name !in us then cr.(status := "") else cr.(status := cr.name))
  {
    if cr.name in us { EqualPoliciesAgree(us, cr); }
  }

  /** Every call that Create needs is answered, and the user was not there. */
  predicate CreateRuns(us: Users, cr: UserCR, calls: Calls) {
    && calls.relist.Served? && cr.name !in us && calls.add.Served?
    && (cr.spec.Wanted() != [] ==> calls.attach.Served?)
  }

  /** When Create completes, and what it leaves wherever it stops: the user with the generated secret if
      adding it took effect, with the wanted policies if attaching them did, and the claim and
      the connection secret only at the end. */
  lemma CreateAnswers(us: Users, cr: UserCR, me: nat, late: Users, calls: Calls)
    ensures var (us', cr', r) := AfterCreate(us, cr, me, late, calls);
            var (now, wanted) := (late + us, cr.spec.Wanted());
            var adds := calls.relist.Served? && cr.name !in us && calls.add.Applied();
            && (r.Ok? <==> CreateRuns(us, cr, calls))
            && (r == Err(AlreadyExists) <==> calls.relist.Served? && cr.name in us)
            && Local(now, us', cr.name)
            && (!adds ==> us' == now)
            && (adds ==> cr.name in us')
            && (adds ==>
                  us'[cr.name] == Object(
                    if cr.name in now then now[cr.name].origin else By(me),
                    UserBody(if calls.add.Served? && wanted != [] && calls.attach.Applied()
                             then AddMissing(Attached(now, cr.name), wanted) else Attached(now, cr.name),
                             calls.password)))
            && cr' == cr.(claimed := cr.claimed || r.Ok?,
                          spec := cr.spec.(connection := if r.Ok? && calls.publish
                                                         then Some(Connection(cr.name, calls.password))
                                                         else cr.spec.connection))
  {
    var us1 := PutUser(late + us, cr.name, calls.password, me, calls.add).0;
    assert Local(late + us, us1, cr.name);
    assert Local(us1, SetPolicies(us1, cr, calls).0, cr.name);
  }

  /** Every call that Update needs is answered: the detaching only if anything is attached, the
      attaching only if anything is wanted, and the secret only for a live resource. */
  predicate UpdateRuns(us: Users, cr: UserCR, calls: Calls) {
    && calls.info.Served? && cr.name in us
    && (us[cr.name].body.attached != [] ==> calls.detach.Served?)
    && (cr.spec.Wanted() != [] ==> calls.attach.Served?)
    && (!cr.deleting ==> calls.readSecret.Served? && cr.spec.connection.Some? && calls.setUser.Served?)
  }

  lemma UpdateCompletesIff(us: Users, cr: UserCR, me: nat, calls: Calls)
    requires cr.name in us ==> WellFormed(us[cr.name].body.attached)
    ensures var r := AfterUpdate(us, cr, me, calls).1;
            && (r.Ok? <==> UpdateRuns(us, cr, calls))
            && (r == Err(NotFound) <==> calls.info.Served? && cr.name !in us)
  {
    if cr.name in us { DecodeOfJoin(us[cr.name].body.attached); }
  }

  /** What an Update leaves of the user's policies wherever it stops: the wanted ones from nothing if it
      got to attaching them, none if only the detaching took effect, otherwise the old ones. */
  lemma UpdateLeavesPolicies(us: Users, cr: UserCR, me: nat, calls: Calls)
    requires cr.name in us && WellFormed(us[cr.name].body.attached)
    ensures var us' := AfterUpdate(us, cr, me, calls).0;
            var (attached, wanted) := (us[cr.name].body.attached, cr.spec.Wanted());
            && cr.name in us'
            && us'[cr.name].body.attached ==
                 if !calls.info.Served? then attached
                 else if (attached == [] || calls.detach.Served?) && wanted != [] && calls.attach.Applied()
                      then AddMissing([], wanted)
                 else if calls.detach.Applied() then [] else attached
  {
    var attached := us[cr.name].body.attached;
    DecodeOfJoin(attached);
    KeepNone(attached, NotIn(attached));
  }

  /** What it leaves of secrets: the user of the connection secret is made or gets its secret exactly
      if the policies were rewritten, the secret could be read and the call took effect; no other
      user comes, goes or has its secret changed. */
  lemma UpdateLeavesSecrets(us: Users, cr: UserCR, me: nat, calls: Calls, name: string)
    requires cr.name in us && WellFormed(us[cr.name].body.attached)
    ensures var (us', attached) := (AfterUpdate(us, cr, me, calls).0, us[cr.name].body.attached);
            var resets := && calls.info.Served? && (attached != [] ==> calls.detach.Served?)
                          && (cr.spec.Wanted() != [] ==> calls.attach.Served?)
                          && !cr.deleting && calls.readSecret.Served? && calls.setUser.Applied()
                          && cr.spec.connection.Some? && cr.spec.connection.value.accessKey == name;
            && (name in us' <==> name in us || resets)
            && (resets ==> us'[name].body.secret == cr.spec.connection.value.secretKey)
            && (name in us && !resets ==> us'[name].body.secret == us[name].body.secret)
            && (name in us' ==> us'[name].origin == if name in us then us[name].origin else By(me))
  {
    DecodeOfJoin(us[cr.name].body.attached);
  }

  /** Delete removes the user whenever the call takes effect, and completes exactly if it was there and
      the call is answered. */
  lemma DeleteAnswers(us: Users, name: string, call: Call)
    ensures var (us', r) := Remove(us, name, call);
            && (name in us' <==> name in us && call.Dropped?)
            && (forall n :: n != name ==> (n in us' <==> n in us) && (n in us ==> us'[n] == us[n]))
            && (r.Ok? <==> call.Served? && name in us)
  {
  }

  // ---------------------------------------------------------------- convergence

  function UpdateMany(us: Users, cr: UserCR, me: nat, tries: seq<Calls>): Users {
    if tries == [] then us
    else AfterUpdate(UpdateMany(us, cr, me, tries[..|tries| - 1]), cr, me, tries[|tries| - 1]).0
  }

  /** The user is there with well-formed names, and no other user's policies differ. */
  ghost predicate NamesKept(us: Users, us': Users, name: string) {
    && name in us' && WellFormed(us'[name].body.attached)
    && forall n :: n in us && n != name ==> n in us' && us'[n].body.attached == us[n].body.attached
  }

  lemma PutPoliciesKeepsNames(us: Users, name: string, names: seq<string>, call: Call)
    requires name in us && WellFormed(us[name].body.attached) && WellFormed(names)
    ensures NamesKept(us, Attach(us, name, names, call).0, name)
    ensures NamesKept(us, Detach(us, name, names, call).0, name)
  {
    KeepMembers(us[name].body.attached, NotIn(names));
    AddMissingMembers(us[name].body.attached, names);
  }

  /** Detaching what is attached, attaching what is wanted: the two policy writes of an Update. */
  lemma RewriteKeepsNames(us: Users, cr: UserCR, calls: Calls)
    requires cr.name in us && WellFormed(us[cr.name].body.attached) && WellFormed(cr.spec.Wanted())
    ensures var attached := us[cr.name].body.attached;
            var us1 := if attached == [] then us else Detach(us, cr.name, attached, calls.detach).0;
            NamesKept(us, us1, cr.name) && NamesKept(us, SetPolicies(us1, cr, calls).0, cr.name)
  {
    var attached := us[cr.name].body.attached;
    PutPoliciesKeepsNames(us, cr.name, attached, calls.detach);
    var us1 := if attached == [] then us else Detach(us, cr.name, attached, calls.detach).0;
    PutPoliciesKeepsNames(us1, cr.name, cr.spec.Wanted(), calls.attach);
  }

  lemma PutUserKeepsNames(us: Users, us2: Users, name: string, other: string, secret: string, me: nat, call: Call)
    requires NamesKept(us, us2, name)
    ensures NamesKept(us, PutUser(us2, other, secret, me, call).0, name)
  {
  }

  /** An Update, aborted anywhere or not, keeps the user, keeps its names well formed and leaves
      every other user's policies alone. */
  lemma UpdateKeepsNames(us: Users, cr: UserCR, me: nat, calls: Calls)
    requires cr.name in us && WellFormed(us[cr.name].body.attached) && WellFormed(cr.spec.Wanted())
    ensures NamesKept(us, AfterUpdate(us, cr, me, calls).0, cr.name)
  {
    var attached := us[cr.name].body.attached;
    DecodeOfJoin(attached);
    RewriteKeepsNames(us, cr, calls);
    var us1 := if attached == [] then us else Detach(us, cr.name, attached, calls.detach).0;
    var us2 := SetPolicies(us1, cr, calls).0;
    if cr.spec.connection.Some? {
      var c := cr.spec.connection.value;
      PutUserKeepsNames(us, us2, cr.name, c.accessKey, c.secretKey, me, calls.setUser);
      var us3 := PutUser(us2, c.accessKey, c.secretKey, me, calls.setUser).0;
      assert AfterUpdate(us, cr, me, calls).0 in {us, us1, us2, us3};
    } else {
      assert AfterUpdate(us, cr, me, calls).0 in {us, us1, us2};
    }
  }

  lemma {:induction false} UpdateManyKeepsNames(us: Users, cr: UserCR, me: nat, tries: seq<Calls>)
    requires cr.name in us && WellFormed(us[cr.name].body.attached) && WellFormed(cr.spec.Wanted())
    ensures NamesKept(us, UpdateMany(us, cr, me, tries), cr.name)
  {
    if tries == [] {
    } else {
      UpdateManyKeepsNames(us, cr, me, tries[..|tries| - 1]);
      UpdateKeepsNames(UpdateMany(us, cr, me, tries[..|tries| - 1]), cr, me, tries[|tries| - 1]);
    }
  }

  /** The user that the connection secret names has the secret it holds. */
  ghost predicate SecretSet(us: Users, cr: UserCR) {
    && cr.spec.connection.Some?
    && cr.spec.connection.value.accessKey in us
    && us[cr.spec.connection.value.accessKey].body.secret == cr.spec.connection.value.secretKey
  }

  lemma CompletedUpdate(us: Users, cr: UserCR, me: nat, calls: Calls)
    requires cr.name in us && WellFormed(us[cr.name].body.attached) && UpdateRuns(us, cr, calls)
    ensures var us' := AfterUpdate(us, cr, me, calls).0;
            && cr.name in us' && us'[cr.name].body.attached == AddMissing([], cr.spec.Wanted())
            && (!cr.deleting ==> SecretSet(us', cr))
  {
    var attached := us[cr.name].body.attached;
    DecodeOfJoin(attached);
    KeepNone(attached, NotIn(attached));
  }

  /** After any number of Updates aborted at any call and one completed Update, the user has
      exactly the wanted policies, whatever it had before, and no other user's changed. Observe's
      comparison then accepts, exactly unless the spec gives an explicitly empty list or a name
      twice. */
  lemma {:induction false} UserConverges(us: Users, cr: UserCR, me: nat, tries: seq<Calls>, last: Calls)
    requires cr.name in us && WellFormed(us[cr.name].body.attached) && WellFormed(cr.spec.Wanted())
    requires UpdateRuns(UpdateMany(us, cr, me, tries), cr, last)
    ensures var us' := AfterUpdate(UpdateMany(us, cr, me, tries), cr, me, last).0;
            && AfterUpdate(UpdateMany(us, cr, me, tries), cr, me, last).1.Ok?
            && cr.name in us'
            && (!cr.deleting ==> SecretSet(us', cr))
            && (NoDuplicates(cr.spec.Wanted()) ==> us'[cr.name].body.attached == cr.spec.Wanted())
            && (forall n :: n in us && n != cr.name ==> n in us' && us'[n].body.attached == us[n].body.attached)
            && (EqualPolicies(Join(us'[cr.name].body.attached), cr.spec.policies) <==>
                cr.spec.policies != Some([]) && NoDuplicates(cr.spec.Wanted()))
  {
    var before, wanted := UpdateMany(us, cr, me, tries), cr.spec.Wanted();
    UpdateManyKeepsNames(us, cr, me, tries);
    UpdateKeepsNames(before, cr, me, last);
    CompletedUpdate(before, cr, me, last);
    AddMissingExactIff(wanted);
    AddMissingMembers([], wanted);
    AttachedAcceptedIff(cr.spec);
  }

  /** Observe accepts the policies attached from nothing exactly unless the spec gives an
      explicitly empty list or a name twice. */
  lemma AttachedAcceptedIff(spec: UserSpec)
    requires WellFormed(spec.Wanted())
    ensures EqualPolicies(Join(AddMissing([], spec.Wanted())), spec.policies) <==>
            spec.policies != Some([]) && NoDuplicates(spec.Wanted())
  {
    var wanted := spec.Wanted();
    var stored := AddMissing([], wanted);
    AddMissingExactIff(wanted);
    AddMissingMembers([], wanted);
    EqualPoliciesIff(Join(stored), spec.policies);
    if wanted != [] {
      assert wanted[0] in stored;
      assert stored[0] in wanted && wanted[0] in wanted;
      SplitOfJoin(stored);
      SplitOfJoin(wanted);
      assert stored[0] != "" && wanted[0] != "";
    }
  }

  /** Observe reports a user up to date exactly if the resource holds it, its attached policies are
      the spec's in order, nil for none, and, unless it is being deleted, its secret works. */
  lemma {:induction false} ObserveUpToDateIff(us: Users, cr: UserCR, calls: Calls)
    requires cr.name in us ==> WellFormed(us[cr.name].body.attached)
    ensures Observed(us, cr, calls).1 == Ok(Observation(true, true)) <==>
            && (cr.claimed || cr.status != "") && calls.list.Served? && cr.name in us
            && PoliciesAgree(us, cr)
            && (cr.deleting || (calls.readSecret.Served? && cr.spec.connection.Some? && calls.works))
  {
    ObserveAnswers(us, cr, calls);
  }

  /** A completed Create makes the user with the wanted policies and publishes its credentials, so
      Observe accepts it under the same condition. */
  lemma CreateConvergesIff(us: Users, cr: UserCR, me: nat, calls: Calls, look: Calls)
    requires CreateRuns(us, cr, calls) && WellFormed(cr.spec.Wanted()) && !cr.deleting
    requires calls.publish && look.list.Served? && look.readSecret.Served? && look.works
    ensures var (us', cr', _) := AfterCreate(us, cr, me, map[], calls);
            && us' == us[cr.name := Object(By(me), UserBody(AddMissing([], cr.spec.Wanted()), calls.password))]
            && cr.name !in us && SecretSet(us', cr') && Published(cr')
            && (Observed(us', cr', look).1 == Ok(Observation(true, true)) <==>
                cr.spec.policies != Some([]) && NoDuplicates(cr.spec.Wanted()))
  {
    assert map[] + us == us;
    AttachedAcceptedIff(cr.spec);
  }

  // ---------------------------------------------------------------- the claim machine

  type UserWorld = World<UserBody, UserSpec>

  /** One reconcile: the server after it, and the resource in memory, None if released. Outsiders
      add `late` after Observe looked: in a Create, after its own check. */
  function Turn(us: Users, cr: UserCR, me: nat, late: Users, calls: Calls): (Users, Option<UserCR>) {
    var (seen, outcome) := Observed(us, cr, calls);
    if outcome.Err? then (late + us, Some(seen))
    else if cr.deleting then
      if outcome.value.present then (Remove(late + us, cr.name, calls.remove).0, Some(seen)) else (late + us, None)
    else if !outcome.value.present then
      var (us', cr', _) := AfterCreate(us, seen, me, late, calls);
      (us', Some(cr'))
    else if outcome.value.upToDate then (late + us, Some(seen))
    else (AfterUpdate(late + us, seen, me, calls).0, Some(seen))
  }

  /** The client's methods, driven by the managed reconciler, make this turn. */
  method ReconcileOnce(client: UserClient, user: User, me: nat, late: Users, calls: Calls) returns (released: bool)
    modifies client.ma, user
    ensures (client.ma.users, if released then None else Some(user.Value())) ==
            Turn(old(client.ma.users), old(user.Value()), me, late, calls)
  {
    released := false;
    var seen := client.Observe(user, calls);
    if seen.Ok? && !user.deleting && !seen.value.present {
      var _ := client.Create(user, me, late, calls);
      return;
    }
    client.ma.Interfere(late);
    if seen.Err? { return; }
    if user.deleting {
      if !seen.value.present { return true; }
      var _ := client.Delete(user, calls);
    } else if !seen.value.upToDate {
      var _ := client.Update(user, me, calls);
    }
  }

  function Reconcile(w: UserWorld, r: nat, late: Users, calls: Calls, saved: Writes): UserWorld
    requires r in w.resources
  {
    var (us, after) := Turn(w.objects, w.resources[r], r, late, calls);
    Place(w, r, us, after, saved)
  }

  /** The connection secret still holds the user name that Create published. */
  ghost predicate Published(cr: UserCR) {
    cr.spec.connection.Some? ==> cr.spec.connection.value.accessKey == cr.name
  }

  /** Users stay, by whom they were made, and only `name` is edited or made, by `me`. */
  ghost predicate Keeps(us: Users, us': Users, name: string, me: nat) {
    && Local(us, us', name)
    && (name in us ==> name in us' && us'[name].origin == us[name].origin)
    && (name !in us && name in us' ==> us'[name].origin == By(me))
  }

  lemma CreateKeeps(us: Users, cr: UserCR, me: nat, late: Users, calls: Calls)
    ensures var (us', cr', r) := AfterCreate(us, cr, me, late, calls);
            && Keeps(late + us, us', cr.name, me)
            && cr'.claimed == (cr.claimed || r.Ok?)
            && (r.Ok? || us' != late + us ==> cr.name !in us)
            && (r.Ok? ==> cr.name in us')
            && cr'.name == cr.name && cr'.status == cr.status
            && (Published(cr) ==> Published(cr'))
  {
    var us1 := PutUser(late + us, cr.name, calls.password, me, calls.add).0;
    assert Keeps(late + us, us1, cr.name, me);
    assert Keeps(us1, SetPolicies(us1, cr, calls).0, cr.name, me);
  }

  lemma UpdateKeeps(us: Users, cr: UserCR, me: nat, calls: Calls)
    ensures forall n :: n in us ==> n in AfterUpdate(us, cr, me, calls).0
    ensures Published(cr) ==> Keeps(us, AfterUpdate(us, cr, me, calls).0, cr.name, me)
  {
    if calls.info.Served? && cr.name in us {
      var current := Decode(Join(us[cr.name].body.attached));
      var us1 := if current == [] then us else Detach(us, cr.name, current, calls.detach).0;
      assert Keeps(us, us1, cr.name, me);
      assert Keeps(us1, SetPolicies(us1, cr, calls).0, cr.name, me);
    }
  }

  lemma TurnFacts(us: Users, cr: UserCR, me: nat, late: Users, calls: Calls)
    requires cr.status != "" ==> cr.claimed
    ensures var now := late + us;
            var (us', after) := Turn(us, cr, me, late, calls);
            && (forall n :: n in now && n !in us' ==> n == cr.name && cr.claimed)
            && (Published(cr) ==> Local(now, us', cr.name))
            && (Published(cr) && cr.name in now && cr.name in us' ==> us'[cr.name].origin == now[cr.name].origin)
            && (cr.name in us && cr.name in us' && us'[cr.name] != us[cr.name] ==> cr.claimed)
            && (cr.name !in now && cr.name in us' ==> us'[cr.name].origin == By(me))
            && (after.Some? && cr.claimed ==> after.value.claimed)
            && (after.Some? && after.value.claimed && !cr.claimed ==> cr.name !in us && cr.name in us')
            && (after.Some? && after.value.status != "" ==> cr.claimed)
            && (after.Some? && Published(cr) ==> after.value.name == cr.name && Published(after.value))
  {
    var (seen, outcome) := Observed(us, cr, calls);
    if outcome.Ok? && !cr.deleting {
      if !outcome.value.present {
        CreateKeeps(us, seen, me, late, calls);
        LocalElsewhere(late + us, AfterCreate(us, seen, me, late, calls).0, cr.name);
      } else if !outcome.value.upToDate {
        UpdateKeeps(late + us, seen, me, calls);
      }
    }
  }

  /** A reconcile is a step of the claim machine, even when an outsider adds the user between
      Create's check and its write; and statuses stay backed by claims. */
  lemma {:induction false} UserActs(w: UserWorld, r: nat, late: Users, calls: Calls, saved: Writes)
    requires r in w.resources && StatusBacked(w)
    ensures Acts(w, Reconcile(w, r, late, calls, saved), r)
    ensures StatusBacked(Reconcile(w, r, late, calls, saved))
  {
    var cr := w.resources[r];
    var (us, after) := Turn(w.objects, cr, r, late, calls);
    TurnFacts(w.objects, cr, r, late, calls);
    PlaceActs(w, r, us, after, saved);
  }

  /** With its own secret, it touches nothing but what the resource claims or makes. */
  lemma {:induction false} UserTouches(w: UserWorld, r: nat, late: Users, calls: Calls, saved: Writes)
    requires r in w.resources && StatusBacked(w) && Published(w.resources[r])
    ensures Touches(w, Reconcile(w, r, late, calls, saved), r, late)
  {
    var cr := w.resources[r];
    var (us, after) := Turn(w.objects, cr, r, late, calls);
    UserActs(w, r, late, calls, saved);
    TurnFacts(w.objects, cr, r, late, calls);
    PlaceTouches(w, r, late, us, after, saved);
  }

  // ---------------------------------------------------------------- what is known before a reconcile

  /** It gets to the writes of Create. */
  predicate Creates(w: UserWorld, r: nat, calls: Calls)
    requires r in w.resources
  {
    var cr := w.resources[r];
    !cr.deleting && (cr.claimed ==> calls.list.Served?) && calls.relist.Served? && cr.name !in w.objects
  }

  /** An unclaimed resource's Create runs to its end and its claim is saved. */
  predicate Completes(w: UserWorld, r: nat, calls: Calls, saved: Writes)
    requires r in w.resources
  {
    var cr := w.resources[r];
    && Creates(w, r, calls) && !cr.claimed && saved.annotations
    && calls.add.Served? && (cr.spec.Wanted() != [] ==> calls.attach.Served?)
  }

  /** It makes the user. */
  predicate Makes(w: UserWorld, r: nat, late: Users, calls: Calls)
    requires r in w.resources
  {
    Creates(w, r, calls) && w.resources[r].name !in late && calls.add.Applied()
  }

  /** It resets the secret of a user that somebody just added, or attaches policies to it. */
  predicate EditsLate(w: UserWorld, r: nat, late: Users, calls: Calls)
    requires r in w.resources
  {
    var (name, wanted) := (w.resources[r].name, w.resources[r].spec.Wanted());
    && Creates(w, r, calls) && name in late
    && ((calls.add.Applied() && calls.password != late[name].body.secret) ||
        (calls.add.Served? && wanted != [] && calls.attach.Applied()
         && AddMissing(late[name].body.attached, wanted) != late[name].body.attached))
  }

  predicate Releases(w: UserWorld, r: nat, calls: Calls)
    requires r in w.resources
  {
    var cr := w.resources[r];
    cr.deleting && (cr.claimed ==> calls.list.Served? && cr.name !in w.objects)
  }

  lemma GainsIff(w: UserWorld, r: nat, late: Users, calls: Calls, saved: Writes)
    requires r in w.resources && StatusBacked(w)
    ensures Gains(w, Reconcile(w, r, late, calls, saved), r) <==> Completes(w, r, calls, saved)
  {
    var cr := w.resources[r];
    CreateKeeps(w.objects, cr, r, late, calls);
    CreateKeeps(w.objects, Observed(w.objects, cr, calls).0, r, late, calls);
  }

  /** The guards tell whether the resource is released and its user made. */
  lemma OwnOutcome(w: UserWorld, r: nat, late: Users, calls: Calls, saved: Writes)
    requires r in w.resources && StatusBacked(w)
    ensures var (name, w') := (w.resources[r].name, Reconcile(w, r, late, calls, saved));
            && (r !in w'.resources <==> Releases(w, r, calls))
            && (name in w'.objects && name !in w.objects && name !in late <==> Makes(w, r, late, calls))
  {
  }

  /** The guards tell whether a user that others add meanwhile is edited; it always stays. */
  lemma {:induction false} LateOutcome(w: UserWorld, r: nat, late: Users, calls: Calls, saved: Writes, n: string)
    requires r in w.resources && StatusBacked(w) && Published(w.resources[r]) && n in late && n !in w.objects
    ensures var w' := Reconcile(w, r, late, calls, saved);
            n in w'.objects && (w'.objects[n] != late[n] <==> n == w.resources[r].name && EditsLate(w, r, late, calls))
  {
    var cr := w.resources[r];
    TurnFacts(w.objects, cr, r, late, calls);
    LocalElsewhere(late + w.objects, Reconcile(w, r, late, calls, saved).objects, cr.name);
  }

  // ---------------------------------------------------------------- one reconcile

  /** A reconcile keeps claims exclusive exactly unless its Create completes while another
      resource claims the name. */
  lemma UserExclusiveIff(w: UserWorld, r: nat, late: Users, calls: Calls, saved: Writes)
    requires r in w.resources && Exclusive(w) && StatusBacked(w)
    ensures Exclusive(Reconcile(w, r, late, calls, saved)) <==> !(Completes(w, r, calls, saved) && Rivalled(w, r))
  {
    UserActs(w, r, late, calls, saved);
    GainsIff(w, r, late, calls, saved);
    ActsExclusiveIff(w, Reconcile(w, r, late, calls, saved), r);
  }

  /** It keeps claims on their claimants' own users exactly unless its Create completes on a user
      that an outsider added after Create checked: its secret is reset and it is claimed. */
  lemma UserRootedIff(w: UserWorld, r: nat, late: Users, calls: Calls, saved: Writes)
    requires r in w.resources && StatusBacked(w) && Published(w.resources[r])
    requires Exclusive(w) && Guarded(w) && Rooted(w)
    ensures var name := w.resources[r].name;
            Rooted(Reconcile(w, r, late, calls, saved)) <==>
            !(Completes(w, r, calls, saved) && name in late && late[name].origin != By(r))
  {
    UserTouches(w, r, late, calls, saved);
    GainsIff(w, r, late, calls, saved);
    TouchesRootedIff(w, Reconcile(w, r, late, calls, saved), r, late);
  }

  /** A user that an outsider adds between Create's check and its write has its secret reset to
      the generated one, gets the wanted policies too, and is claimed. */
  lemma LateUserIsTakenOver(w: UserWorld, r: nat, other: Object<UserBody>, calls: Calls)
    requires r in w.resources && StatusBacked(w) && Completes(w, r, calls, Writes(true, true))
    ensures var (name, wanted) := (w.resources[r].name, w.resources[r].spec.Wanted());
            var w' := Reconcile(w, r, map[name := other], calls, Writes(true, true));
            && Claims(w', r, name) && name in w'.objects
            && w'.objects[name] ==
                 Object(other.origin, UserBody(AddMissing(other.body.attached, wanted), calls.password))
  {
  }

  /** What a reconcile leaves of the resource, if it is not released: the claim and the connection
      secret come from a Create that ran to its end, the status from Observe. */
  lemma ResourceAfter(w: UserWorld, r: nat, late: Users, calls: Calls, saved: Writes)
    requires r in w.resources && StatusBacked(w)
    ensures var (cr, w') := (w.resources[r], Reconcile(w, r, late, calls, saved));
            var gone := calls.list.Served? && cr.name !in w.objects;
            var published := Creates(w, r, calls) && CreateRuns(w.objects, cr, calls) && calls.publish;
            && w'.resources - {r} == w.resources - {r}
            && (r in w'.resources ==>
                  w'.resources[r] == cr.(
                    claimed := cr.claimed || Completes(w, r, calls, saved),
                    status := if !saved.status || !cr.claimed then cr.status else if gone then "" else cr.name,
                    spec := cr.spec.(connection := if published then Some(Connection(cr.name, calls.password))
                                                   else cr.spec.connection)))
  {
    UserActs(w, r, late, calls, saved);
    GainsIff(w, r, late, calls, saved);
    CreateAnswers(w.objects, Observed(w.objects, w.resources[r], calls).0, r, late, calls);
  }

  /** A served and saved reconcile of a live resource ends with the user up to date exactly if it was
      before, or if the name is free or claimed and the list names every policy once and is not
      explicitly empty. It writes nothing where nothing has drifted, or to somebody else's user. */
  lemma ServedReconcileSettles(w: UserWorld, r: nat, calls: Calls)
    requires r in w.resources && !w.resources[r].deleting && StatusBacked(w) && WellFormed(w.resources[r].spec.Wanted())
    requires w.resources[r].name in w.objects ==> WellFormed(w.objects[w.resources[r].name].body.attached)
    requires calls.list.Served? && calls.readSecret.Served? && calls.works && calls.relist.Served? && calls.add.Served?
    requires calls.publish && calls.info.Served? && calls.detach.Served? && calls.attach.Served?
    requires calls.setUser.Served?
    requires w.resources[r].claimed ==> w.resources[r].spec.connection.Some?
    ensures var (cr, w') := (w.resources[r], Reconcile(w, r, map[], calls, Writes(true, true)));
            var before := Observed(w.objects, cr, calls).1 == Ok(Observation(true, true));
            && r in w'.resources
            && (Observed(w'.objects, w'.resources[r], calls).1 == Ok(Observation(true, true)) <==>
                before || ((cr.claimed || cr.name !in w.objects)
                           && cr.spec.policies != Some([]) && NoDuplicates(cr.spec.Wanted())))
            && (before || (!cr.claimed && cr.name in w.objects) ==> w'.objects == w.objects)
  {
    var cr := w.resources[r];
    assert map[] + w.objects == w.objects;
    if cr.name !in w.objects {
      CreateConvergesIff(w.objects, Observed(w.objects, cr, calls).0, r, calls, calls);
    } else if cr.claimed {
      var seen := cr.(status := cr.name);
      assert UpdateMany(w.objects, seen, r, []) == w.objects;
      UserConverges(w.objects, seen, r, [], calls);
    }
  }

  // ---------------------------------------------------------------- runs

  type UserEvent = Event<UserBody, Calls>

  ghost predicate Reconciles(w: UserWorld, e: UserEvent, w': UserWorld) {
    e.Pass? && e.id in w.resources && w' == Reconcile(w, e.id, e.late, e.calls, e.saved)
  }

  ghost predicate Concerns(w: UserWorld, e: UserEvent) { e.Pass? && e.id in w.resources }

  ghost predicate AllPublished(w: UserWorld) {
    forall r :: r in w.resources ==> Published(w.resources[r])
  }

  /** A status never names a user without the claim; with `published`, nobody but the controller
      changes the user name in a connection secret. */
  ghost function Machine(published: bool): Controller<UserBody, UserSpec, Calls> {
    Controller(
      iset w, e, w' | Reconciles(w, e, w') :: (w, e, w'),
      iset w, e | Concerns(w, e) && Completes(w, e.id, e.calls, e.saved) :: (w, e),
      iset w, e | Concerns(w, e) && Makes(w, e.id, e.late, e.calls) :: (w, e),
      iset w, e | Concerns(w, e) && EditsLate(w, e.id, e.late, e.calls) :: (w, e),
      iset w, e | Concerns(w, e) && Releases(w, e.id, e.calls) :: (w, e),
      iset{},
      iset w: UserWorld | !StatusBacked(w) || (published && !AllPublished(w)))
  }

  lemma OutcomeForeseen(w: UserWorld, e: UserEvent, w': UserWorld)
    requires Reconciles(w, e, w') && StatusBacked(w) && AllPublished(w)
    ensures Foresees(Machine(true), w, e, w')
  {
    OwnOutcome(w, e.id, e.late, e.calls, e.saved);
    forall n | n in e.late && n !in w.objects
      ensures n in w'.objects
      ensures w'.objects[n] != e.late[n] <==> n == w.resources[e.id].name && EditsLate(w, e.id, e.late, e.calls)
    {
      LateOutcome(w, e.id, e.late, e.calls, e.saved, n);
    }
  }

  lemma MachineFollows(published: bool)
    ensures Follows(Machine(published)) && (published ==> FollowsClosely(Machine(published)))
  {
    var c := Machine(published);
    forall w, e, w' | (w, e, w') in c.passes && w !in c.never
      ensures Acts(w, w', e.id) && w' !in c.never && (Gains(w, w', e.id) <==> (w, e) in c.completes)
      ensures published ==> Touches(w, w', e.id, e.late) && Foresees(c, w, e, w')
    {
      UserActs(w, e.id, e.late, e.calls, e.saved);
      GainsIff(w, e.id, e.late, e.calls, e.saved);
      if published {
        UserTouches(w, e.id, e.late, e.calls, e.saved);
        TurnFacts(w.objects, w.resources[e.id], e.id, e.late, e.calls);
        OutcomeForeseen(w, e, w');
      }
    }
  }

  /** While claims are on their claimants' own users, it changes or removes nobody else's, exactly
      unless it edits a user that an outsider added meanwhile. */
  lemma {:induction false} UserSparesOthersIff(w: UserWorld, r: nat, late: Users, calls: Calls, saved: Writes)
    requires r in w.resources && Rooted(w) && StatusBacked(w) && AllPublished(w)
    ensures var name := w.resources[r].name;
            SparesOthers(w, late, Reconcile(w, r, late, calls, saved), r) <==>
            !(EditsLate(w, r, late, calls) && late[name].origin != By(r))
  {
    MachineFollows(true);
    SparesOthersIff(Machine(true), w, Pass(r, late, calls, saved), Reconcile(w, r, late, calls, saved));
  }

  /** Over a run, with outsiders as they please and deletions split from releases: claims stay
      exclusive exactly as long as no Create completes while another resource claims the name. */
  lemma UserRunExclusiveIff(ws: seq<UserWorld>, es: seq<UserEvent>)
    requires Trace(Machine(false), ws, es) && Exclusive(ws[0])
    ensures (forall i :: 0 <= i <= |es| ==> Exclusive(ws[i])) <==>
            (forall i :: 0 <= i < |es| ==> !Contested(Machine(false), ws[i], es[i]))
  {
    MachineFollows(false);
    NoRenames(Machine(false), ws, es);
    RunExclusiveIff(Machine(false), ws, es);
  }

  /** Over the same runs: claims stay on users that their resources made exactly as long as no
      event uproots one. */
  lemma UserRunRootedIff(ws: seq<UserWorld>, es: seq<UserEvent>)
    requires Trace(Machine(true), ws, es) && Rooted(ws[0])
    ensures (forall i :: 0 <= i <= |es| ==> Rooted(ws[i])) <==>
            (forall i :: 0 <= i < |es| ==> !Uproots(Machine(true), ws[i], es[i], ws[i + 1]))
  {
    MachineFollows(true);
    RunRootedIff(Machine(true), ws, es);
  }

  /** At every moment at most one User resource claims a user name, and claimed users are there
      but for those of leaving resources: whatever outsiders create, even between Create's check and
      its write, if they remove no claimed user and release comes before a rival's turn. */
  lemma UserClaimsExclusive(ws: seq<UserWorld>, es: seq<UserEvent>)
    requires Trace(Machine(false), ws, es) && Protected(ws, es) && Orderly(ws, es)
    requires Guarded(ws[0]) && Exclusive(ws[0])
    ensures forall i :: 0 <= i <= |es| ==> Exclusive(ws[i]) && GuardedButLeaving(ws, es, i)
  {
    MachineFollows(false);
    NoRenames(Machine(false), ws, es);
    ClaimExclusivity(Machine(false), ws, es);
  }

  /** Where connection secrets keep the name that Create published: claims stay on users that
      their resources made exactly as long as no Create completes on a late user; until then a
      reconcile changes or removes nobody else's, exactly unless it edits a late one. */
  lemma UsersNotAdopted(ws: seq<UserWorld>, es: seq<UserEvent>)
    requires Trace(Machine(true), ws, es) && Respected(ws, es) && Orderly(ws, es)
    requires Guarded(ws[0]) && Exclusive(ws[0]) && Rooted(ws[0])
    ensures (forall i :: 0 <= i <= |es| ==> Rooted(ws[i])) <==>
            (forall i :: 0 <= i < |es| ==> !TakesOver(Machine(true), ws[i], es[i]))
    ensures forall i :: 0 <= i < |es| && es[i].Pass? && Rooted(ws[i]) ==>
              (SparesOthers(ws[i], es[i].late, ws[i + 1], es[i].id) <==> !EditsOthers(Machine(true), ws[i], es[i]))
  {
    MachineFollows(true);
    NoRenames(Machine(true), ws, es);
    NonAdoption(Machine(true), ws, es);
  }

  /** Deletion followed at once by release: the user and the resource are gone together, and no
      claim outlives its user. */
  lemma DeleteThenReleaseStaysGuarded(w: UserWorld, r: nat, calls: Calls, saved: Writes)
    requires r in w.resources && w.resources[r].deleting && w.resources[r].claimed
    requires w.resources[r].name in w.objects && calls.list.Served? && calls.remove.Served?
    ensures var mid := Reconcile(w, r, map[], calls, saved);
            && r in mid.resources
            && var w' := Reconcile(mid, r, map[], calls, saved);
               && w'.objects == w.objects - {w.resources[r].name} && w'.resources == w.resources - {r}
               && (Guarded(w) && Exclusive(w) ==> Guarded(w') && Exclusive(w'))
  {
    var mid := Reconcile(w, r, map[], calls, saved);
    var w' := Reconcile(mid, r, map[], calls, saved);
    assert map[] + w.objects == w.objects && map[] + mid.objects == mid.objects;
    assert Claims(w, r, w.resources[r].name);
    assert forall s, n :: Claims(w', s, n) ==> Claims(w, s, n) && s != r;
  }
}
