/** The claim protocol shared by Bucket, Policy and User: an annotation on the resource marks it
    as the one that manages the remote object of its name. This module states the protocol as
    one machine over any kind of object; the controllers' modules show that they follow it. */
module Ownership {
  import opened Outcomes

  /** Who made a remote object: somebody outside the provider, or a resource. */
  datatype Origin = Outsider | By(id: nat)
  datatype Object<O> = Object(origin: Origin, body: O)

  /** A managed resource. `name` is the name of its remote object, `claimed` its annotation and
      `status` the object name in its status, empty when unset. */
  datatype Resource<S> = Resource(name: string, spec: S, claimed: bool, status: string, deleting: bool)

  datatype World<O, S> = World(objects: map<string, Object<O>>, resources: map<nat, Resource<S>>)

  /** Which of a reconcile's changes to the resource reach the Kubernetes API server. */
  datatype Writes = Writes(annotations: bool, status: bool)

  /** The world after r's reconcile: what the server holds and what r looks like in memory when
      it ends, None when r is released. */
  function Place<O, S>(w: World<O, S>, r: nat, objects: map<string, Object<O>>, after: Option<Resource<S>>,
          saved: Writes)
    : World<O, S>
    requires r in w.resources
  {
    World(objects,
          match after
          case None => w.resources - {r}
          case Some(cr) =>
            var before := w.resources[r];
            w.resources[r := Resource(before.name, cr.spec,
                                      if saved.annotations then cr.claimed else before.claimed,
                                      if saved.status then cr.status else before.status,
                                      before.deleting)])
  }

  ghost predicate Claims<O, S>(w: World<O, S>, r: nat, name: string) {
    r in w.resources && w.resources[r].claimed && w.resources[r].name == name
  }

  /** At most one resource claims a remote name. */
  ghost predicate Exclusive<O, S>(w: World<O, S>) {
    forall r, s, n :: Claims(w, r, n) && Claims(w, s, n) ==> r == s
  }

  /** Every claimed object is there. */
  ghost predicate Guarded<O, S>(w: World<O, S>) {
    forall r, n :: Claims(w, r, n) ==> n in w.objects
  }

  /** Claimed objects were made by their claimants. */
  ghost predicate Rooted<O, S>(w: World<O, S>) {
    forall r, n :: Claims(w, r, n) && n in w.objects ==> w.objects[n].origin == By(r)
  }

  /** A status that names an object belongs to a resource that claims it. */
  ghost predicate StatusBacked<O, S>(w: World<O, S>) {
    forall r :: r in w.resources && w.resources[r].status != "" ==> w.resources[r].claimed
  }

  // ---------------------------------------------------------------- the machine's steps

  /** A step gives r a claim that it did not have. */
  ghost predicate Gains<O, S>(w: World<O, S>, w': World<O, S>, r: nat) {
    r in w.resources && !w.resources[r].claimed && r in w'.resources && w'.resources[r].claimed
  }

  /** Another resource claims the name of r's object. */
  ghost predicate Rivalled<O, S>(w: World<O, S>, r: nat) {
    r in w.resources && exists s :: s != r && Claims(w, s, w.resources[r].name)
  }

  /** One reconcile of resource r, outsiders adding objects meanwhile: r can gain a claim only on
      an object that was not there at the start and is at the end, objects vanish only under
      r's own claim, and no other resource changes. r itself may be released. */
  ghost predicate Acts<O, S>(w: World<O, S>, w': World<O, S>, r: nat) {
    && r in w.resources
    && w.resources - {r} == w'.resources - {r}
    && (r in w'.resources ==>
          && w'.resources[r].name == w.resources[r].name
          && (w.resources[r].claimed ==> w'.resources[r].claimed))
    && (Gains(w, w', r) ==> w.resources[r].name !in w.objects && w.resources[r].name in w'.objects)
    && (forall n :: n in w.objects && n !in w'.objects ==> Claims(w, r, n))
  }

  /** Besides, r changes only an object under its claim, and the objects that are new are those
      that outsiders added and the one that r made under its own name. */
  ghost predicate Touches<O, S>(w: World<O, S>, w': World<O, S>, r: nat, late: map<string, Object<O>>) {
    && Acts(w, w', r)
    && (forall n :: n in w.objects && n in w'.objects && w'.objects[n] != w.objects[n] ==>
          Claims(w, r, n) && w'.objects[n].origin == w.objects[n].origin)
    && (forall n :: n !in w.objects && n in w'.objects ==>
          if n in late then w'.objects[n].origin == late[n].origin
          else n == w.resources[r].name && w'.objects[n].origin == By(r))
  }

  /** How a controller shows that its reconcile is a step of the machine. */
  lemma PlaceActs<O, S>(w: World<O, S>, r: nat, objects: map<string, Object<O>>, after: Option<Resource<S>>,
          saved: Writes)
    requires r in w.resources
    requires after.Some? && w.resources[r].claimed ==> after.value.claimed
    requires after.Some? && after.value.claimed && !w.resources[r].claimed ==>
               w.resources[r].name !in w.objects && w.resources[r].name in objects
    requires forall n :: n in w.objects && n !in objects ==> n == w.resources[r].name && w.resources[r].claimed
    ensures Acts(w, Place(w, r, objects, after, saved), r)
  {
    assert Place(w, r, objects, after, saved).resources - {r} == w.resources - {r};
  }

  /** The objects agree but for one name. */
  ghost predicate Local<O>(os: map<string, Object<O>>, os': map<string, Object<O>>, name: string) {
    os - {name} == os' - {name}
  }

  lemma LocalElsewhere<O>(os: map<string, Object<O>>, os': map<string, Object<O>>, name: string)
    requires Local(os, os', name)
    ensures forall n :: n != name ==> (n in os <==> n in os')
    ensures forall n :: n != name && n in os ==> os'[n] == os[n]
  {
    forall n | n != name
      ensures n in os <==> n in os'
      ensures n in os ==> os'[n] == os[n]
    {
      assert n in os <==> n in os - {name};
      assert n in os' <==> n in os' - {name};
      assert n in os ==> (os - {name})[n] == os[n] && (os' - {name})[n] == os'[n];
    }
  }

  lemma PlaceTouches<O, S>(w: World<O, S>, r: nat, late: map<string, Object<O>>, objects: map<string, Object<O>>,
                           after: Option<Resource<S>>, saved: Writes)
    requires r in w.resources && Acts(w, Place(w, r, objects, after, saved), r)
    requires var (name, now) := (w.resources[r].name, late + w.objects);
             && Local(now, objects, name)
             && (name in now && name in objects ==> objects[name].origin == now[name].origin)
             && (name in w.objects && name in objects && objects[name] != w.objects[name] ==> w.resources[r].claimed)
             && (name !in now && name in objects ==> objects[name].origin == By(r))
    ensures Touches(w, Place(w, r, objects, after, saved), r, late)
  {
    LocalElsewhere(late + w.objects, objects, w.resources[r].name);
  }

  lemma OthersKeepClaims<O, S>(w: World<O, S>, w': World<O, S>, actor: nat)
    requires Acts(w, w', actor)
    ensures forall s, n :: s != actor ==> (Claims(w', s, n) <==> Claims(w, s, n))
    ensures forall n :: Claims(w', actor, n) ==>
              n == w.resources[actor].name && (Claims(w, actor, n) || Gains(w, w', actor))
  {
    forall s, n | s != actor ensures Claims(w', s, n) <==> Claims(w, s, n) {
      assert s in w.resources <==> s in w.resources - {actor};
      assert s in w'.resources <==> s in w'.resources - {actor};
      assert s in w.resources ==> (w.resources - {actor})[s] == w.resources[s];
      assert s in w'.resources ==> (w'.resources - {actor})[s] == w'.resources[s];
    }
  }

  /** Anyone else: new resources, edits of specs that keep the object name, deletion requests,
      and outsiders doing what they like to the objects. Renames are events of their own. */
  ghost predicate Environment<O, S>(w: World<O, S>, w': World<O, S>) {
    forall r :: r in w'.resources ==>
      if r in w.resources then
        && w'.resources[r].name == w.resources[r].name
        && w'.resources[r].claimed == w.resources[r].claimed
        && w'.resources[r].status == w.resources[r].status
      else !w'.resources[r].claimed && w'.resources[r].status == ""
  }

  // ---------------------------------------------------------------- one step

  /** A reconcile keeps claims exclusive exactly unless it gains a claim on a rival's name. */
  lemma ActsExclusiveIff<O, S>(w: World<O, S>, w': World<O, S>, r: nat)
    requires Acts(w, w', r) && Exclusive(w)
    ensures Exclusive(w') <==> !(Gains(w, w', r) && Rivalled(w, r))
  {
    OthersKeepClaims(w, w', r);
    if Gains(w, w', r) && Rivalled(w, r) {
      var s :| s != r && Claims(w, s, w.resources[r].name);
      assert Claims(w', s, w.resources[r].name) && Claims(w', r, w.resources[r].name);
    }
  }

  /** What outsiders add during r's reconcile is not under a name that is claimed and missing. */
  ghost predicate KeepsOff<O, S>(w: World<O, S>, late: map<string, Object<O>>) {
    forall s, n :: Claims(w, s, n) && n in late ==> n in w.objects
  }

  /** Every rival's object is there. */
  ghost predicate RivalsGuarded<O, S>(w: World<O, S>, r: nat) {
    r in w.resources && forall s :: s != r && Claims(w, s, w.resources[r].name) ==> w.resources[r].name in w.objects
  }

  /** A reconcile keeps claims on their claimants' own objects exactly unless it gains a claim on
      an object that an outsider added meanwhile. */
  lemma TouchesRootedIff<O, S>(w: World<O, S>, w': World<O, S>, r: nat, late: map<string, Object<O>>)
    requires Touches(w, w', r, late) && Exclusive(w) && Rooted(w) && KeepsOff(w, late) && RivalsGuarded(w, r)
    ensures var name := w.resources[r].name;
            Rooted(w') <==> !(Gains(w, w', r) && name in late && late[name].origin != By(r))
  {
    OthersKeepClaims(w, w', r);
    var name := w.resources[r].name;
    if Gains(w, w', r) && name in late && late[name].origin != By(r) {
      assert Claims(w', r, name);
    } else {
      forall s, n | Claims(w', s, n) && n in w'.objects ensures w'.objects[n].origin == By(s) {
        if s != r {
          assert Claims(w, s, n);
        }
      }
    }
  }

  // ---------------------------------------------------------------- renames

  /** A user gives r's object another name. */
  function Renamed<O, S>(w: World<O, S>, r: nat, name: string): World<O, S>
    requires r in w.resources
  {
    w.(resources := w.resources[r := w.resources[r].(name := name)])
  }

  ghost predicate TakenBut<O, S>(w: World<O, S>, r: nat, name: string) {
    exists s :: s != r && Claims(w, s, name)
  }

  lemma RenamedClaims<O, S>(w: World<O, S>, r: nat, name: string)
    requires r in w.resources
    ensures forall s, n :: Claims(Renamed(w, r, name), s, n) <==>
              if s == r then w.resources[r].claimed && n == name else Claims(w, s, n)
  {
  }

  /** A rename keeps claims exclusive exactly unless it takes a claim to a name that another
      resource claims. */
  lemma RenameExclusiveIff<O, S>(w: World<O, S>, r: nat, name: string)
    requires r in w.resources && Exclusive(w)
    ensures Exclusive(Renamed(w, r, name)) <==> !(w.resources[r].claimed && TakenBut(w, r, name))
  {
    var w' := Renamed(w, r, name);
    RenamedClaims(w, r, name);
    if w.resources[r].claimed && TakenBut(w, r, name) {
      var s :| s != r && Claims(w, s, name);
      assert Claims(w', s, name) && Claims(w', r, name);
    }
  }

  /** It keeps claims on their claimants' own objects exactly unless it takes a claim to an object
      of somebody else. */
  lemma RenameRootedIff<O, S>(w: World<O, S>, r: nat, name: string)
    requires r in w.resources && Rooted(w)
    ensures Rooted(Renamed(w, r, name)) <==>
            !(w.resources[r].claimed && name in w.objects && w.objects[name].origin != By(r))
  {
    var w' := Renamed(w, r, name);
    RenamedClaims(w, r, name);
    if w.resources[r].claimed && name in w.objects && w.objects[name].origin != By(r) {
      assert Claims(w', r, name);
    }
  }

  // ---------------------------------------------------------------- runs

  /** What happens next: something outside the controller, a rename of a resource's object, or a
      reconcile of resource `id` during which outsiders add `late`. */
  datatype Event<O, C> =
    | Outside
    | Rename(id: nat, name: string)
    | Pass(id: nat, late: map<string, Object<O>>, calls: C, saved: Writes)

  /** A controller: its passes, with the world before and after, and by what is known before them,
      those in which a Create runs to its end and its claim is saved, a new object is made, an
      object that outsiders just added is edited, and the resource is released; the renames that
      are admitted; and the worlds that neither a pass nor anything else leads to. */
  datatype Controller<!O, !S, !C> = Controller(
    ghost passes: iset<(World<O, S>, Event<O, C>, World<O, S>)>,
    ghost completes: iset<(World<O, S>, Event<O, C>)>,
    ghost makes: iset<(World<O, S>, Event<O, C>)>,
    ghost edits: iset<(World<O, S>, Event<O, C>)>,
    ghost releases: iset<(World<O, S>, Event<O, C>)>,
    ghost admits: iset<(World<O, S>, nat, string)>,
    ghost never: iset<World<O, S>>)

  /** Its passes are steps of the machine, which gain a claim exactly where a Create completes. */
  ghost predicate Follows<O(!new), S(!new), C(!new)>(c: Controller<O, S, C>) {
    forall w, e, w' :: (w, e, w') in c.passes && w !in c.never ==>
      e.Pass? && Acts(w, w', e.id) && w' !in c.never && (Gains(w, w', e.id) <==> (w, e) in c.completes)
  }

  /** What is known before a pass about new objects, late ones and its release comes true. */
  ghost predicate Foresees<O, S, C>(c: Controller<O, S, C>, w: World<O, S>, e: Event<O, C>, w': World<O, S>)
    requires e.Pass? && e.id in w.resources
  {
    var name := w.resources[e.id].name;
    && (e.id !in w'.resources <==> (w, e) in c.releases)
    && (name in w'.objects && name !in w.objects && name !in e.late <==> (w, e) in c.makes)
    && ((w, e) in c.edits ==> name in e.late && name !in w.objects)
    && (forall n :: n in e.late && n !in w.objects ==>
          n in w'.objects && (w'.objects[n] != e.late[n] <==> n == name && (w, e) in c.edits))
  }

  ghost predicate FollowsClosely<O(!new), S(!new), C(!new)>(c: Controller<O, S, C>) {
    && Follows(c)
    && forall w, e, w' :: (w, e, w') in c.passes && w !in c.never ==>
         e.Pass? && Touches(w, w', e.id, e.late) && Foresees(c, w, e, w')
  }

  ghost predicate Next<O, S, C>(c: Controller<O, S, C>, w: World<O, S>, e: Event<O, C>, w': World<O, S>) {
    match e
    case Pass(_, _, _, _) => (w, e, w') in c.passes
    case Rename(r, name) =>
      r in w.resources && (w, r, name) in c.admits && w' == Renamed(w, r, name) && (w !in c.never ==> w' !in c.never)
    case Outside => Environment(w, w') && (w !in c.never ==> w' !in c.never)
  }

  ghost predicate Trace<O, S, C>(c: Controller<O, S, C>, ws: seq<World<O, S>>, es: seq<Event<O, C>>) {
    |ws| == |es| + 1 && ws[0] !in c.never && forall i :: 0 <= i < |es| ==> Next(c, ws[i], es[i], ws[i + 1])
  }

  lemma TraceAvoids<O(!new), S(!new), C(!new)>(c: Controller<O, S, C>, ws: seq<World<O, S>>, es: seq<Event<O, C>>)
    requires Follows(c) && Trace(c, ws, es)
    ensures forall i :: 0 <= i <= |es| ==> ws[i] !in c.never
  {
    for k := 0 to |es|
      invariant forall i :: 0 <= i <= k ==> ws[i] !in c.never
    {
      assert Next(c, ws[k], es[k], ws[k + 1]);
    }
  }

  lemma OutsideKeepsClaims<O, S>(w: World<O, S>, w': World<O, S>)
    requires Environment(w, w')
    ensures forall r, n :: Claims(w', r, n) <==> Claims(w, r, n) && r in w'.resources
  {
  }

  /** A Create completes while another resource claims the name. */
  ghost predicate Contested<O, S, C>(c: Controller<O, S, C>, w: World<O, S>, e: Event<O, C>) {
    e.Pass? && (w, e) in c.completes && Rivalled(w, e.id)
  }

  /** A claimed resource is renamed to a name that another one claims. */
  ghost predicate Collides<O, S, C>(w: World<O, S>, e: Event<O, C>) {
    e.Rename? && e.id in w.resources && w.resources[e.id].claimed && TakenBut(w, e.id, e.name)
  }

  lemma NextExclusiveIff<O(!new), S(!new), C(!new)>(c: Controller<O, S, C>, w: World<O, S>, e: Event<O, C>,
          w': World<O, S>)
    requires Follows(c) && w !in c.never && Next(c, w, e, w') && Exclusive(w)
    ensures Exclusive(w') <==> !Contested(c, w, e) && !Collides(w, e)
  {
    match e
    case Pass(r, _, _, _) => ActsExclusiveIff(w, w', r);
    case Rename(r, name) => RenameExclusiveIff(w, r, name);
    case Outside => OutsideKeepsClaims(w, w');
  }

  /** Over a run, with outsiders as they please and deletions split from releases: claims stay
      exclusive exactly as long as no Create completes while another resource claims the name and
      no claimed resource is renamed to a name that another one claims. */
  lemma RunExclusiveIff<O(!new), S(!new), C(!new)>(c: Controller<O, S, C>, ws: seq<World<O, S>>,
          es: seq<Event<O, C>>)
    requires Follows(c) && Trace(c, ws, es) && Exclusive(ws[0])
    ensures (forall i :: 0 <= i <= |es| ==> Exclusive(ws[i])) <==>
            (forall i :: 0 <= i < |es| ==> !Contested(c, ws[i], es[i]) && !Collides(ws[i], es[i]))
  {
    TraceAvoids(c, ws, es);
    if i :| 0 <= i < |es| && (Contested(c, ws[i], es[i]) || Collides(ws[i], es[i])) {
      if Exclusive(ws[i]) { NextExclusiveIff(c, ws[i], es[i], ws[i + 1]); }
    } else {
      for k := 0 to |es|
        invariant forall i :: 0 <= i <= k ==> Exclusive(ws[i])
      {
        NextExclusiveIff(c, ws[k], es[k], ws[k + 1]);
      }
    }
  }

  // ---------------------------------------------------------------- deletion and release

  /** After step i, r's deletion has taken its object away and r has not been released since. */
  ghost predicate Leaving<O, S, C>(ws: seq<World<O, S>>, es: seq<Event<O, C>>, i: nat, r: nat)
    requires |ws| == |es| + 1 && i <= |es|
  {
    && i > 0 && r in ws[i].resources
    && (Leaving(ws, es, i - 1, r) ||
        (es[i - 1].Pass? && es[i - 1].id == r && !(ws[i - 1].objects.Keys <= ws[i].objects.Keys)))
  }

  ghost predicate SameName<O, S>(w: World<O, S>, r: nat, s: nat) {
    r in w.resources && s in w.resources && w.resources[r].name == w.resources[s].name
  }

  /** From a deletion that took effect until the release, no other resource of the same name is
      reconciled. */
  ghost predicate Orderly<O, S, C>(ws: seq<World<O, S>>, es: seq<Event<O, C>>)
    requires |ws| == |es| + 1
  {
    forall i, r :: 0 <= i < |es| && es[i].Pass? && Leaving(ws, es, i, r) && r != es[i].id ==>
      !SameName(ws[i], r, es[i].id)
  }

  /** A claimed resource is renamed only to an object that is there and that no other one claims. */
  ghost predicate Lands<O, S, C>(w: World<O, S>, e: Event<O, C>) {
    e.Rename? && e.id in w.resources && w.resources[e.id].claimed ==> e.name in w.objects && !TakenBut(w, e.id, e.name)
  }
  ghost predicate Steady<O, S, C>(ws: seq<World<O, S>>, es: seq<Event<O, C>>) {
    |ws| == |es| + 1 && forall i :: 0 <= i < |es| ==> Lands(ws[i], es[i])
  }

  /** Outsiders do not remove claimed objects. */
  ghost predicate Protects<O, S>(w: World<O, S>, w': World<O, S>) {
    forall r, n :: Claims(w, r, n) && n in w.objects ==> n in w'.objects
  }
  ghost predicate Protected<O, S, C>(ws: seq<World<O, S>>, es: seq<Event<O, C>>) {
    |ws| == |es| + 1 && forall i :: 0 <= i < |es| && es[i].Outside? ==> Protects(ws[i], ws[i + 1])
  }

  /** A controller that admits no rename. */
  lemma NoRenames<O, S, C>(c: Controller<O, S, C>, ws: seq<World<O, S>>, es: seq<Event<O, C>>)
    requires Trace(c, ws, es) && c.admits == iset{}
    ensures forall i :: 0 <= i < |es| ==> !es[i].Rename?
    ensures Steady(ws, es)
  {
    forall i | 0 <= i < |es| ensures !es[i].Rename? {
      assert Next(c, ws[i], es[i], ws[i + 1]);
    }
  }

  /** Only a resource that is leaving claims an object that is not there. */
  ghost predicate GuardedButLeaving<O, S, C>(ws: seq<World<O, S>>, es: seq<Event<O, C>>, i: nat)
    requires |ws| == |es| + 1 && i <= |es|
  {
    forall r, n :: Claims(ws[i], r, n) && n !in ws[i].objects ==> Leaving(ws, es, i, r)
  }

  lemma LeaversAreNoRivals<O, S, C>(ws: seq<World<O, S>>, es: seq<Event<O, C>>, i: nat)
    requires |ws| == |es| + 1 && i < |es| && es[i].Pass? && es[i].id in ws[i].resources
    requires Orderly(ws, es) && GuardedButLeaving(ws, es, i)
    ensures RivalsGuarded(ws[i], es[i].id)
  {
    var r, w := es[i].id, ws[i];
    forall s | s != r && Claims(w, s, w.resources[r].name) ensures w.resources[r].name in w.objects {
      assert SameName(w, s, r);
    }
  }

  lemma PassKeepsGuarded<O, S, C>(ws: seq<World<O, S>>, es: seq<Event<O, C>>, i: nat)
    requires |ws| == |es| + 1 && i < |es| && Orderly(ws, es)
    requires es[i].Pass? && Acts(ws[i], ws[i + 1], es[i].id)
    requires Exclusive(ws[i]) && GuardedButLeaving(ws, es, i)
    ensures Exclusive(ws[i + 1]) && GuardedButLeaving(ws, es, i + 1)
  {
    var (w, w') := (ws[i], ws[i + 1]);
    LeaversAreNoRivals(ws, es, i);
    ActsExclusiveIff(w, w', es[i].id);
    OthersKeepClaims(w, w', es[i].id);
    forall r, n | Claims(w', r, n) && n !in w'.objects ensures Leaving(ws, es, i + 1, r) {
      assert Claims(w, r, n);
      if n in w.objects {
        assert Claims(w, es[i].id, n);
      } else {
        assert Leaving(ws, es, i, r);
      }
    }
  }

  lemma RenameKeepsGuarded<O, S, C>(ws: seq<World<O, S>>, es: seq<Event<O, C>>, i: nat)
    requires |ws| == |es| + 1 && i < |es| && es[i].Rename? && es[i].id in ws[i].resources
    requires ws[i + 1] == Renamed(ws[i], es[i].id, es[i].name) && Lands(ws[i], es[i])
    requires Exclusive(ws[i]) && GuardedButLeaving(ws, es, i)
    ensures Exclusive(ws[i + 1]) && GuardedButLeaving(ws, es, i + 1)
  {
    var w' := ws[i + 1];
    RenameExclusiveIff(ws[i], es[i].id, es[i].name);
    RenamedClaims(ws[i], es[i].id, es[i].name);
    forall r, n | Claims(w', r, n) && n !in w'.objects ensures Leaving(ws, es, i + 1, r) {
      assert Claims(ws[i], r, n);
      assert Leaving(ws, es, i, r);
    }
  }

  lemma OutsideKeepsGuarded<O, S, C>(ws: seq<World<O, S>>, es: seq<Event<O, C>>, i: nat)
    requires |ws| == |es| + 1 && i < |es| && Environment(ws[i], ws[i + 1]) && Protects(ws[i], ws[i + 1])
    requires Exclusive(ws[i]) && GuardedButLeaving(ws, es, i)
    ensures Exclusive(ws[i + 1]) && GuardedButLeaving(ws, es, i + 1)
  {
    var w' := ws[i + 1];
    OutsideKeepsClaims(ws[i], w');
    forall r, n | Claims(w', r, n) && n !in w'.objects ensures Leaving(ws, es, i + 1, r) {
      assert Claims(ws[i], r, n);
      assert Leaving(ws, es, i, r);
    }
  }

  /** At every moment of a run at most one resource claims a name, whatever outsiders create and
      whenever they do, and the claimed objects are there but for those of leaving resources:
      provided that outsiders remove no claimed object, claims are renamed only to objects that
      nobody claims, and a deletion that took effect is followed by its release before a
      rival's turn. */
  lemma ClaimExclusivity<O(!new), S(!new), C(!new)>(c: Controller<O, S, C>, ws: seq<World<O, S>>,
          es: seq<Event<O, C>>)
    requires Follows(c) && Trace(c, ws, es) && Protected(ws, es) && Steady(ws, es) && Orderly(ws, es)
    requires Guarded(ws[0]) && Exclusive(ws[0])
    ensures forall i :: 0 <= i <= |es| ==> Exclusive(ws[i]) && GuardedButLeaving(ws, es, i)
  {
    TraceAvoids(c, ws, es);
    for k := 0 to |es|
      invariant forall i :: 0 <= i <= k ==> Exclusive(ws[i]) && GuardedButLeaving(ws, es, i)
    {
      assert Next(c, ws[k], es[k], ws[k + 1]) && Lands(ws[k], es[k]);
      match es[k]
      case Pass(_, _, _, _) => PassKeepsGuarded(ws, es, k);
      case Rename(_, _) => RenameKeepsGuarded(ws, es, k);
      case Outside => OutsideKeepsGuarded(ws, es, k);
    }
  }

  // ---------------------------------------------------------------- whose objects are claimed

  /** After a pass s claims n. */
  ghost predicate WillClaim<O, S, C>(c: Controller<O, S, C>, w: World<O, S>, e: Event<O, C>, s: nat, n: string)
    requires e.Pass? && e.id in w.resources
  {
    if s != e.id then Claims(w, s, n)
    else n == w.resources[s].name && ((w.resources[s].claimed && (w, e) !in c.releases) || (w, e) in c.completes)
  }

  /** Under the missing name n that s will claim, an outsider adds an object or the pass makes one
      for another resource. */
  ghost predicate MisplacesAt<O, S, C>(c: Controller<O, S, C>, w: World<O, S>, e: Event<O, C>, s: nat, n: string)
    requires e.Pass? && e.id in w.resources
  {
    && WillClaim(c, w, e, s, n) && n !in w.objects
    && if n in e.late then e.late[n].origin != By(s)
       else s != e.id && n == w.resources[e.id].name && (w, e) in c.makes
  }
  ghost predicate Misplaces<O, S, C>(c: Controller<O, S, C>, w: World<O, S>, e: Event<O, C>)
    requires e.Pass? && e.id in w.resources
  {
    exists s, n :: MisplacesAt(c, w, e, s, n)
  }

  /** Outsiders put their own object under a claimed name. */
  ghost predicate Replaces<O, S>(w: World<O, S>, w': World<O, S>) {
    exists r, n :: Claims(w, r, n) && r in w'.resources && n in w'.objects && w'.objects[n].origin != By(r)
  }

  /** A claimed resource is renamed to an object of somebody else. */
  ghost predicate Grabs<O, S, C>(w: World<O, S>, e: Event<O, C>) {
    && e.Rename? && e.id in w.resources && w.resources[e.id].claimed
    && e.name in w.objects && w.objects[e.name].origin != By(e.id)
  }

  ghost predicate Uproots<O, S, C>(c: Controller<O, S, C>, w: World<O, S>, e: Event<O, C>, w': World<O, S>) {
    match e
    case Pass(r, _, _, _) => r in w.resources && Misplaces(c, w, e)
    case Rename(_, _) => Grabs(w, e)
    case Outside => Replaces(w, w')
  }

  lemma WillClaimIff<O, S, C>(c: Controller<O, S, C>, w: World<O, S>, e: Event<O, C>, w': World<O, S>)
    requires e.Pass? && Touches(w, w', e.id, e.late) && Foresees(c, w, e, w')
    requires Gains(w, w', e.id) <==> (w, e) in c.completes
    ensures forall s, n :: Claims(w', s, n) <==> WillClaim(c, w, e, s, n)
  {
    OthersKeepClaims(w, w', e.id);
  }

  lemma PassRootedIff<O, S, C>(c: Controller<O, S, C>, w: World<O, S>, e: Event<O, C>, w': World<O, S>)
    requires e.Pass? && Touches(w, w', e.id, e.late) && Foresees(c, w, e, w') && Rooted(w)
    requires Gains(w, w', e.id) <==> (w, e) in c.completes
    ensures Rooted(w') <==> !Misplaces(c, w, e)
  {
    WillClaimIff(c, w, e, w');
    OthersKeepClaims(w, w', e.id);
    if s, n :| MisplacesAt(c, w, e, s, n) {
      assert Claims(w', s, n) && n in w'.objects;
      assert w'.objects[n].origin != By(s);
    } else {
      forall s, n | Claims(w', s, n) && n in w'.objects ensures w'.objects[n].origin == By(s) {
        assert WillClaim(c, w, e, s, n) && !MisplacesAt(c, w, e, s, n);
        if n in w.objects { assert Claims(w, s, n); }
      }
    }
  }

  lemma NextRootedIff<O(!new), S(!new), C(!new)>(c: Controller<O, S, C>, w: World<O, S>, e: Event<O, C>,
          w': World<O, S>)
    requires FollowsClosely(c) && w !in c.never && Next(c, w, e, w') && Rooted(w)
    ensures Rooted(w') <==> !Uproots(c, w, e, w')
  {
    match e
    case Pass(_, _, _, _) => PassRootedIff(c, w, e, w');
    case Rename(r, name) => RenameRootedIff(w, r, name);
    case Outside => OutsideKeepsClaims(w, w');
  }

  /** Over a run, with no condition on outsiders, renames or deletions: claims stay on objects that
      their claimants made exactly as long as no event uproots one. */
  lemma RunRootedIff<O(!new), S(!new), C(!new)>(c: Controller<O, S, C>, ws: seq<World<O, S>>, es: seq<Event<O, C>>)
    requires FollowsClosely(c) && Trace(c, ws, es) && Rooted(ws[0])
    ensures (forall i :: 0 <= i <= |es| ==> Rooted(ws[i])) <==>
            (forall i :: 0 <= i < |es| ==> !Uproots(c, ws[i], es[i], ws[i + 1]))
  {
    TraceAvoids(c, ws, es);
    if i :| 0 <= i < |es| && Uproots(c, ws[i], es[i], ws[i + 1]) {
      if Rooted(ws[i]) { NextRootedIff(c, ws[i], es[i], ws[i + 1]); }
    } else {
      for k := 0 to |es|
        invariant forall i :: 0 <= i <= k ==> Rooted(ws[i])
      {
        assert !Uproots(c, ws[k], es[k], ws[k + 1]);
        NextRootedIff(c, ws[k], es[k], ws[k + 1]);
      }
    }
  }

  // ---------------------------------------------------------------- non-adoption

  /** Outsiders neither make, remove nor replace an object under a claimed name; they may edit it. */
  ghost predicate Respects<O, S, C>(w: World<O, S>, e: Event<O, C>, w': World<O, S>) {
    match e
    case Pass(_, late, _, _) => KeepsOff(w, late)
    case Rename(_, _) => true
    case Outside =>
      forall r, n :: Claims(w, r, n) ==>
        (n in w.objects <==> n in w'.objects) && (n in w.objects ==> w'.objects[n].origin == w.objects[n].origin)
  }
  ghost predicate Respected<O, S, C>(ws: seq<World<O, S>>, es: seq<Event<O, C>>) {
    |ws| == |es| + 1 && forall i :: 0 <= i < |es| ==> Respects(ws[i], es[i], ws[i + 1])
  }

  /** A Create completes on an object that an outsider added after it was found missing. */
  ghost predicate TakesOver<O, S, C>(c: Controller<O, S, C>, w: World<O, S>, e: Event<O, C>) {
    && e.Pass? && (w, e) in c.completes && e.id in w.resources
    && w.resources[e.id].name in e.late && e.late[w.resources[e.id].name].origin != By(e.id)
  }

  lemma OutsideKeepsRooted<O, S, C>(w: World<O, S>, e: Event<O, C>, w': World<O, S>)
    requires Environment(w, w') && e.Outside? && Respects(w, e, w') && Rooted(w)
    ensures Rooted(w')
  {
    OutsideKeepsClaims(w, w');
  }

  lemma StepRootedIff<O(!new), S(!new), C(!new)>(c: Controller<O, S, C>, ws: seq<World<O, S>>, es: seq<Event<O, C>>,
          i: nat)
    requires FollowsClosely(c) && |ws| == |es| + 1 && i < |es| && ws[i] !in c.never && Orderly(ws, es)
    requires Next(c, ws[i], es[i], ws[i + 1]) && Respects(ws[i], es[i], ws[i + 1])
    requires Exclusive(ws[i]) && GuardedButLeaving(ws, es, i) && Rooted(ws[i])
    ensures Rooted(ws[i + 1]) <==> !TakesOver(c, ws[i], es[i]) && !Grabs(ws[i], es[i])
  {
    match es[i]
    case Pass(r, late, _, _) =>
      LeaversAreNoRivals(ws, es, i);
      TouchesRootedIff(ws[i], ws[i + 1], r, late);
    case Rename(r, name) => RenameRootedIff(ws[i], r, name);
    case Outside => OutsideKeepsRooted(ws[i], es[i], ws[i + 1]);
  }

  /** Of the objects that are there when r's step starts or are added during it, it leaves alone
      every one that r did not make. */
  ghost predicate SparesOthers<O, S>(w: World<O, S>, late: map<string, Object<O>>, w': World<O, S>, r: nat) {
    forall n :: n in late + w.objects && (late + w.objects)[n].origin != By(r) ==>
      n in w'.objects && w'.objects[n] == (late + w.objects)[n]
  }

  /** A pass edits an object that an outsider added during it. */
  ghost predicate EditsOthers<O, S, C>(c: Controller<O, S, C>, w: World<O, S>, e: Event<O, C>) {
    && e.Pass? && (w, e) in c.edits && e.id in w.resources
    && w.resources[e.id].name in e.late && e.late[w.resources[e.id].name].origin != By(e.id)
  }

  /** While claims are on their claimants' own objects, a pass spares everybody else's, exactly
      unless it edits one that an outsider added during it. */
  lemma SparesOthersIff<O(!new), S(!new), C(!new)>(c: Controller<O, S, C>, w: World<O, S>, e: Event<O, C>,
          w': World<O, S>)
    requires FollowsClosely(c) && w !in c.never && e.Pass? && Next(c, w, e, w') && Rooted(w)
    ensures SparesOthers(w, e.late, w', e.id) <==> !EditsOthers(c, w, e)
  {
    var now, name := e.late + w.objects, w.resources[e.id].name;
    assert Touches(w, w', e.id, e.late) && Foresees(c, w, e, w');
    if EditsOthers(c, w, e) {
      assert name in now && now[name] == e.late[name] && w'.objects[name] != now[name];
    } else {
      forall n | n in now && now[n].origin != By(e.id) ensures n in w'.objects && w'.objects[n] == now[n] {
        if n in w.objects { assert !Claims(w, e.id, n); }
      }
    }
  }

  lemma RunSparesOthersIff<O(!new), S(!new), C(!new)>(c: Controller<O, S, C>, ws: seq<World<O, S>>,
          es: seq<Event<O, C>>)
    requires FollowsClosely(c) && Trace(c, ws, es)
    ensures forall i :: 0 <= i < |es| && es[i].Pass? && Rooted(ws[i]) ==>
              (SparesOthers(ws[i], es[i].late, ws[i + 1], es[i].id) <==> !EditsOthers(c, ws[i], es[i]))
  {
    TraceAvoids(c, ws, es);
    forall i | 0 <= i < |es| && es[i].Pass? && Rooted(ws[i])
      ensures SparesOthers(ws[i], es[i].late, ws[i + 1], es[i].id) <==> !EditsOthers(c, ws[i], es[i])
    {
      SparesOthersIff(c, ws[i], es[i], ws[i + 1]);
    }
  }

  lemma RespectProtects<O, S, C>(ws: seq<World<O, S>>, es: seq<Event<O, C>>)
    requires Respected(ws, es)
    ensures Protected(ws, es)
  {
    forall i | 0 <= i < |es| && es[i].Outside? ensures Protects(ws[i], ws[i + 1]) {
      assert Respects(ws[i], es[i], ws[i + 1]);
    }
  }

  /** Claims stay on objects that their claimants made exactly as long as no Create completes on an
      object added during it and no claimed resource is renamed to somebody else's object; until
      then a pass changes or removes nobody else's object, exactly unless it edits one that was
      added during it. */
  lemma NonAdoption<O(!new), S(!new), C(!new)>(c: Controller<O, S, C>, ws: seq<World<O, S>>, es: seq<Event<O, C>>)
    requires FollowsClosely(c) && Trace(c, ws, es) && Respected(ws, es) && Steady(ws, es) && Orderly(ws, es)
    requires Guarded(ws[0]) && Exclusive(ws[0]) && Rooted(ws[0])
    ensures (forall i :: 0 <= i <= |es| ==> Rooted(ws[i])) <==>
            (forall i :: 0 <= i < |es| ==> !TakesOver(c, ws[i], es[i]) && !Grabs(ws[i], es[i]))
    ensures forall i :: 0 <= i < |es| && es[i].Pass? && Rooted(ws[i]) ==>
              (SparesOthers(ws[i], es[i].late, ws[i + 1], es[i].id) <==> !EditsOthers(c, ws[i], es[i]))
  {
    TraceAvoids(c, ws, es);
    RunSparesOthersIff(c, ws, es);
    RespectProtects(ws, es);
    ClaimExclusivity(c, ws, es);
    if i :| 0 <= i < |es| && (TakesOver(c, ws[i], es[i]) || Grabs(ws[i], es[i])) {
      if Rooted(ws[i]) { StepRootedIff(c, ws, es, i); }
    } else {
      for k := 0 to |es|
        invariant forall i :: 0 <= i <= k ==> Rooted(ws[i])
      {
        StepRootedIff(c, ws, es, k);
      }
    }
  }
}
