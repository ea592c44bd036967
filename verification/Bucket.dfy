/** The Bucket controller: what Observe, Create, Update and Delete do to the server and to the
    resource, call by call. Any call may fail, or take effect and lose its answer. */
module BucketController {
  import opened Outcomes
  import opened Ownership

  type Tags = map<string, string>

  datatype BucketSpec = BucketSpec(
    provider: string, bucketName: string, region: string, deleteAll: bool,
    policy: Option<string>, tags: Option<Tags>)

  /** A remote bucket: its policy, empty for none; its tags, None for no tag set; whether it
      holds no objects. */
  datatype BucketBody = BucketBody(policy: string, tags: Option<Tags>, empty: bool)

  type Buckets = map<string, Object<BucketBody>>
  type BucketCR = Resource<BucketSpec>

  /** `listed` is whether every object of a bucket can be listed; a purge skips those that cannot. */
  datatype Calls = Calls(
    look: Call, readPolicy: Call, readTags: Call,
    make: Call, recheck: Call, setPolicy: Call, tagsParse: bool, setTags: Call,
    listed: bool, purge: Call, remove: Call)

  const ALL_SERVED := Calls(Served, Served, Served, Served, Served, Served, true, Served, true, Served, Served)

  function GetBucketName(meta: string, spec: BucketSpec): string {
    if spec.bucketName == "" then meta else spec.bucketName
  }

  // ---------------------------------------------------------------- the server's answers

  function Reply(call: Call, served: Result<()>): Result<()> {
    if call.Served? then served else Err(Transient)
  }

  function Make(bs: Buckets, name: string, me: nat, call: Call): (Buckets, Result<()>) {
    (if name !in bs && call.Applied() then bs[name := Object(By(me), BucketBody("", None, true))] else bs,
     Reply(call, if name in bs then Err(AlreadyExists) else Ok(())))
  }

  /** Replace the body of a bucket that is there. */
  function Put(bs: Buckets, name: string, body: BucketBody, call: Call): (Buckets, Result<()>) {
    (if name in bs && call.Applied() then bs[name := bs[name].(body := body)] else bs,
     Reply(call, if name in bs then Ok(()) else Err(NotFound)))
  }

  function Body(bs: Buckets, name: string): BucketBody {
    if name in bs then bs[name].body else BucketBody("", None, true)
  }

  function PutPolicy(bs: Buckets, name: string, policy: string, call: Call): (Buckets, Result<()>) {
    Put(bs, name, Body(bs, name).(policy := policy), call)
  }

  function PutTags(bs: Buckets, name: string, tags: Option<Tags>, call: Call): (Buckets, Result<()>) {
    Put(bs, name, Body(bs, name).(tags := tags), call)
  }

  /** Removing the objects that can be listed. */
  function Purge(bs: Buckets, name: string, listed: bool, call: Call): (Buckets, Result<()>) {
    Put(bs, name, Body(bs, name).(empty := Body(bs, name).empty || listed), call)
  }

  function Remove(bs: Buckets, name: string, call: Call): (Buckets, Result<()>) {
    (if name in bs && bs[name].body.empty && call.Applied() then bs - {name} else bs,
     Reply(call, if name !in bs then Err(NotFound) else if bs[name].body.empty then Ok(()) else Err(Invalid)))
  }

  class BucketServer {
    var buckets: Buckets

    method BucketExists(name: string, call: Call) returns (r: Result<bool>)
      ensures r == if call.Served? then Ok(name in buckets) else Err(Transient)
    {
      r := if call.Served? then Ok(name in buckets) else Err(Transient);
    }

    method GetBucketPolicy(name: string, call: Call) returns (r: Result<string>)
      ensures r == if !call.Served? then Err(Transient)
                   else if name in buckets then Ok(buckets[name].body.policy) else Err(NotFound)
    {
      if call != Served { return Err(Transient); }
      return if name in buckets then Ok(buckets[name].body.policy) else Err(NotFound);
    }

    method GetBucketTagging(name: string, call: Call) returns (r: Result<Option<Tags>>)
      ensures r == if !call.Served? then Err(Transient)
                   else if name in buckets then Ok(buckets[name].body.tags) else Err(NotFound)
    {
      if call != Served { return Err(Transient); }
      return if name in buckets then Ok(buckets[name].body.tags) else Err(NotFound);
    }

    method MakeBucket(name: string, me: nat, call: Call) returns (r: Result<()>)
      modifies this
      ensures (buckets, r) == Make(old(buckets), name, me, call)
    {
      var (after, reply) := Make(buckets, name, me, call);
      buckets, r := after, reply;
    }

    method SetBucketPolicy(name: string, policy: string, call: Call) returns (r: Result<()>)
      modifies this
      ensures (buckets, r) == PutPolicy(old(buckets), name, policy, call)
    {
      var (after, reply) := PutPolicy(buckets, name, policy, call);
      buckets, r := after, reply;
    }

    /** Setting a tag set, or removing it with None. */
    method SetBucketTagging(name: string, tags: Option<Tags>, call: Call) returns (r: Result<()>)
      modifies this
      ensures (buckets, r) == PutTags(old(buckets), name, tags, call)
    {
      var (after, reply) := PutTags(buckets, name, tags, call);
      buckets, r := after, reply;
    }

    method RemoveObjects(name: string, listed: bool, call: Call) returns (r: Result<()>)
      modifies this
      ensures (buckets, r) == Purge(old(buckets), name, listed, call)
    {
      var (after, reply) := Purge(buckets, name, listed, call);
      buckets, r := after, reply;
    }

    method RemoveBucket(name: string, call: Call) returns (r: Result<()>)
      modifies this
      ensures (buckets, r) == Remove(old(buckets), name, call)
    {
      var (after, reply) := Remove(buckets, name, call);
      buckets, r := after, reply;
    }

    /** Somebody else makes buckets under names that are free. */
    method Interfere(late: Buckets)
      modifies this
      ensures buckets == late + old(buckets)
    {
      buckets := late + buckets;
    }
  }

  // ---------------------------------------------------------------- what each method does

  predicate TagsMatch(current: Option<Tags>, desired: Tags) {
    match current
    case None => |desired| == 0
    case Some(tags) => tags == desired
  }

  function Latest(body: BucketBody, spec: BucketSpec, calls: Calls): Result<Observation> {
    if spec.policy.Some? && !calls.readPolicy.Served? then Err(Transient)
    else if spec.policy.Some? && body.policy != spec.policy.value then Ok(Observation(true, false))
    else if spec.tags.Some? && !calls.readTags.Served? then Err(Transient)
    else Ok(Observation(true, spec.tags.Some? ==> TagsMatch(body.tags, spec.tags.value)))
  }

  function Observed(bs: Buckets, cr: BucketCR, calls: Calls): (BucketCR, Result<Observation>) {
    if !calls.look.Served? then (cr, Err(Transient))
    else if cr.name !in bs then (cr, Ok(Observation(false, false)))
    else if !cr.claimed then (cr, Err(AlreadyExists))
    else (cr.(status := cr.name), Latest(bs[cr.name].body, cr.spec, calls))
  }

  function ApplyPolicy(bs: Buckets, cr: BucketCR, calls: Calls): (Buckets, Result<()>) {
    if cr.spec.policy.None? then (bs, Ok(())) else PutPolicy(bs, cr.name, cr.spec.policy.value, calls.setPolicy)
  }

  /** Update clears the tag set for an explicitly empty map; Create sends the empty set. */
  function ApplyTags(bs: Buckets, cr: BucketCR, clear: bool, calls: Calls): (Buckets, Result<()>) {
    if cr.spec.tags.None? then (bs, Ok(()))
    else if clear && |cr.spec.tags.value| == 0 then PutTags(bs, cr.name, None, calls.setTags)
    else if !calls.tagsParse then (bs, Err(Invalid))
    else PutTags(bs, cr.name, Some(cr.spec.tags.value), calls.setTags)
  }

  function AfterUpdate(bs: Buckets, cr: BucketCR, calls: Calls): (Buckets, Result<()>) {
    var (bs1, set1) := ApplyPolicy(bs, cr, calls);
    if set1.Err? then (bs1, set1) else ApplyTags(bs1, cr, true, calls)
  }

  function AfterCreate(bs: Buckets, cr: BucketCR, me: nat, calls: Calls): (Buckets, BucketCR, Result<()>) {
    var (bs0, made) := Make(bs, cr.name, me, calls.make);
    if made.Err? && !(calls.recheck.Served? && cr.name in bs0) then (bs0, cr, made)
    else
      var (bs1, set1) := ApplyPolicy(bs0, cr, calls);
      if set1.Err? then (bs1, cr, set1)
      else
        var (bs2, set2) := ApplyTags(bs1, cr, false, calls);
        if set2.Err? then (bs2, cr, set2) else (bs2, cr.(claimed := true), Ok(()))
  }

  /** Deletion goes by the name in the status. */
  function AfterDelete(bs: Buckets, cr: BucketCR, calls: Calls): (Buckets, Result<()>) {
    if !cr.spec.deleteAll then Remove(bs, cr.status, calls.remove)
    else
      var (bs0, purged) := Purge(bs, cr.status, calls.listed, calls.purge);
      if purged.Err? then (bs0, purged) else Remove(bs0, cr.status, calls.remove)
  }

  // ---------------------------------------------------------------- what they leave alone

  /** At most one bucket is edited, and stays; if it is new, `me` made it. */
  ghost predicate Keeps(bs: Buckets, bs': Buckets, name: string, me: nat) {
    && Local(bs, bs', name)
    && (name in bs ==> name in bs' && bs'[name].origin == bs[name].origin)
    && (name !in bs && name in bs' ==> bs'[name].origin == By(me))
  }

  lemma ApplyKeeps(bs: Buckets, cr: BucketCR, clear: bool, me: nat, calls: Calls)
    ensures Keeps(bs, ApplyPolicy(bs, cr, calls).0, cr.name, me) && ApplyPolicy(bs, cr, calls).0.Keys == bs.Keys
    ensures Keeps(bs, ApplyTags(bs, cr, clear, calls).0, cr.name, me)
    ensures ApplyTags(bs, cr, clear, calls).0.Keys == bs.Keys
  {
  }

  lemma UpdateKeeps(bs: Buckets, cr: BucketCR, me: nat, calls: Calls)
    ensures Keeps(bs, AfterUpdate(bs, cr, calls).0, cr.name, me) && AfterUpdate(bs, cr, calls).0.Keys == bs.Keys
  {
    ApplyKeeps(bs, cr, true, me, calls);
    ApplyKeeps(ApplyPolicy(bs, cr, calls).0, cr, true, me, calls);
  }

  lemma CreateKeeps(bs: Buckets, cr: BucketCR, me: nat, calls: Calls)
    ensures var (bs', cr', r) := AfterCreate(bs, cr, me, calls);
            && Keeps(bs, bs', cr.name, me)
            && cr' == (if r.Ok? then cr.(claimed := true) else cr)
            && (r.Ok? ==> cr.name in bs')
  {
    var bs0 := Make(bs, cr.name, me, calls.make).0;
    assert Keeps(bs, bs0, cr.name, me);
    ApplyKeeps(bs0, cr, false, me, calls);
    ApplyKeeps(ApplyPolicy(bs0, cr, calls).0, cr, false, me, calls);
  }

  lemma DeleteIsLocal(bs: Buckets, cr: BucketCR, calls: Calls)
    ensures Local(bs, AfterDelete(bs, cr, calls).0, cr.status)
    ensures AfterDelete(bs, cr, calls).0.Keys <= bs.Keys
    ensures cr.status in AfterDelete(bs, cr, calls).0 ==>
              AfterDelete(bs, cr, calls).0[cr.status].origin == bs[cr.status].origin
  {
  }

  lemma ObservedFacts(bs: Buckets, cr: BucketCR, calls: Calls)
    ensures var (seen, r) := Observed(bs, cr, calls);
            && (seen == cr || (cr.claimed && cr.name in bs && seen == cr.(status := cr.name)))
            && (r.Ok? ==> (r.value.present <==> cr.name in bs))
            && (r.Ok? && r.value.present ==> cr.claimed && seen.status == cr.name)
  {
  }

  // ---------------------------------------------------------------- the client

  class Bucket {
    const meta: string
    var spec: BucketSpec
    var claimed: bool
    var status: string
    var deleting: bool

    constructor (meta: string, spec: BucketSpec)
      ensures this.meta == meta && Value() == Resource(GetBucketName(meta, spec), spec, false, "", false)
    {
      this.meta, this.spec := meta, spec;
      claimed, status, deleting := false, "", false;
    }

    function Value(): BucketCR reads this {
      Resource(GetBucketName(meta, spec), spec, claimed, status, deleting)
    }
  }

  class BucketClient {
    const mc: BucketServer

    constructor (mc: BucketServer)
      ensures this.mc == mc
    {
      this.mc := mc;
    }

    method Observe(bucket: Bucket, calls: Calls) returns (r: Result<Observation>)
      modifies bucket
      ensures (bucket.Value(), r) == Observed(mc.buckets, old(bucket.Value()), calls)
    {
      var bucketName := GetBucketName(bucket.meta, bucket.spec);
      var present := mc.BucketExists(bucketName, calls.look);
      if present.Err? { return Err(present.error); }

      if bucket.claimed && present.value {
        bucket.status := bucketName;
        var isLatest := true;
        if bucket.spec.policy.Some? {
          var current := mc.GetBucketPolicy(bucketName, calls.readPolicy);
          if current.Err? { return Err(current.error); }
          isLatest := current.value == bucket.spec.policy.value;
        }
        if isLatest && bucket.spec.tags.Some? {
          var current := mc.GetBucketTagging(bucketName, calls.readTags);
          if current.Err? { return Err(current.error); }
          isLatest := TagsMatch(current.value, bucket.spec.tags.value);
        }
        return Ok(Observation(true, isLatest));
      } else if present.value {
        return Err(AlreadyExists);
      }
      return Ok(Observation(false, false));
    }

    /** Makes the bucket, or takes one that turns out to be there. */
    method CreateS3Bucket(bucket: Bucket, me: nat, calls: Calls) returns (r: Result<()>)
      modifies mc
      ensures var (after, made) := Make(old(mc.buckets), bucket.Value().name, me, calls.make);
              mc.buckets == after &&
              r == if made.Err? && calls.recheck.Served? && bucket.Value().name in after then Ok(()) else made
    {
      var bucketName := GetBucketName(bucket.meta, bucket.spec);
      r := mc.MakeBucket(bucketName, me, calls.make);
      if r.Err? {
        var present := mc.BucketExists(bucketName, calls.recheck);
        if present == Ok(true) { r := Ok(()); }
      }
    }

    method Create(bucket: Bucket, me: nat, calls: Calls) returns (r: Result<()>)
      modifies mc, bucket
      ensures (mc.buckets, bucket.Value(), r) == AfterCreate(old(mc.buckets), old(bucket.Value()), me, calls)
    {
      var bucketName := GetBucketName(bucket.meta, bucket.spec);
      r := CreateS3Bucket(bucket, me, calls);
      if r.Err? { return; }
      if bucket.spec.policy.Some? {
        r := mc.SetBucketPolicy(bucketName, bucket.spec.policy.value, calls.setPolicy);
        if r.Err? { return; }
      }
      if bucket.spec.tags.Some? {
        if !calls.tagsParse { return Err(Invalid); }
        r := mc.SetBucketTagging(bucketName, bucket.spec.tags, calls.setTags);
        if r.Err? { return; }
      }
      bucket.claimed := true;
    }

    method Update(bucket: Bucket, calls: Calls) returns (r: Result<()>)
      modifies mc
      ensures (mc.buckets, r) == AfterUpdate(old(mc.buckets), bucket.Value(), calls)
    {
      var bucketName := GetBucketName(bucket.meta, bucket.spec);
      if bucket.spec.policy.Some? {
        r := mc.SetBucketPolicy(bucketName, bucket.spec.policy.value, calls.setPolicy);
        if r.Err? { return; }
      }
      if bucket.spec.tags.Some? {
        if |bucket.spec.tags.value| == 0 {
          r := mc.SetBucketTagging(bucketName, None, calls.setTags);
          if r.Err? { return; }
        } else {
          if !calls.tagsParse { return Err(Invalid); }
          r := mc.SetBucketTagging(bucketName, bucket.spec.tags, calls.setTags);
          if r.Err? { return; }
        }
      }
      return Ok(());
    }

    method Delete(bucket: Bucket, calls: Calls) returns (r: Result<()>)
      modifies mc
      ensures (mc.buckets, r) == AfterDelete(old(mc.buckets), bucket.Value(), calls)
    {
      if bucket.spec.deleteAll {
        r := mc.RemoveObjects(bucket.status, calls.listed, calls.purge);
        if r.Err? { return; }
      }
      r := mc.RemoveBucket(bucket.status, calls.remove);
    }
  }

  // ---------------------------------------------------------------- what the methods answer

  /** A name in the spec is the bucket's name, otherwise that of the resource is. */
  lemma BucketNameIs(meta: string, spec: BucketSpec, name: string)
    requires name != ""
    ensures GetBucketName(meta, spec) == name <==> spec.bucketName == name || (spec.bucketName == "" && meta == name)
  {
  }

  /** The bucket is as the spec says, where it says anything. No tag set is as good as an empty one. */
  ghost predicate PolicyAgrees(body: BucketBody, spec: BucketSpec) {
    spec.policy.Some? ==> body.policy == spec.policy.value
  }
  ghost predicate TagsAgree(body: BucketBody, spec: BucketSpec) {
    spec.tags.Some? ==> body.tags == spec.tags || (spec.tags == Some(map[]) && body.tags.None?)
  }

  /** All that Observe can answer: absent, taken, unanswered, up to date, or drift in the policy or,
      where that agrees, in the tags. The status is set exactly for a bucket that is there and
      claimed. */
  lemma ObserveAnswers(bs: Buckets, cr: BucketCR, calls: Calls)
    ensures var (seen, r) := Observed(bs, cr, calls);
            var mine := calls.look.Served? && cr.name in bs && cr.claimed;
            var (readPolicy, readTags) := (cr.spec.policy.Some? ==> calls.readPolicy.Served?,
                                           cr.spec.tags.Some? ==> calls.readTags.Served?);
            var (policy, tags) := (PolicyAgrees(Body(bs, cr.name), cr.spec), TagsAgree(Body(bs, cr.name), cr.spec));
            && (r == Ok(Observation(false, false)) <==> calls.look.Served? && cr.name !in bs)
            && (r == Err(AlreadyExists) <==> calls.look.Served? && cr.name in bs && !cr.claimed)
            && (r == Err(Transient) <==> !calls.look.Served? || (mine && (!readPolicy || (policy && !readTags))))
            && (r == Ok(Observation(true, true)) <==> mine && readPolicy && policy && readTags && tags)
            && (r == Ok(Observation(true, false)) <==> mine && readPolicy && (!policy || (readTags && !tags)))
            && seen == if mine then cr.(status := cr.name) else cr
  {
    if cr.spec.tags.Some? && |cr.spec.tags.value| == 0 {
      assert cr.spec.tags.value == map[];
    }
  }

  /** Create gets past the making of the bucket. */
  predicate Obtains(bs: Buckets, name: string, calls: Calls) {
    if name in bs then calls.recheck.Served? else calls.make.Served? || (calls.make.Applied() && calls.recheck.Served?)
  }

  /** Every call that Create needs is answered. */
  predicate CreateRuns(bs: Buckets, cr: BucketCR, calls: Calls) {
    && Obtains(bs, cr.name, calls)
    && (cr.spec.policy.Some? ==> calls.setPolicy.Served?)
    && (cr.spec.tags.Some? ==> calls.tagsParse && calls.setTags.Served?)
  }

  /** When Create completes, and what it leaves wherever it stops: each aspect of the bucket is as
      the spec says exactly if its own write took effect and the earlier ones were answered. */
  lemma CreateAnswers(bs: Buckets, cr: BucketCR, me: nat, calls: Calls)
    ensures var (bs', cr', r) := AfterCreate(bs, cr, me, calls);
            var wrotePolicy := Obtains(bs, cr.name, calls) && cr.spec.policy.Some? && calls.setPolicy.Applied();
            var wroteTags := && Obtains(bs, cr.name, calls) && (cr.spec.policy.Some? ==> calls.setPolicy.Served?)
                             && cr.spec.tags.Some? && calls.tagsParse && calls.setTags.Applied();
            && (r.Ok? <==> CreateRuns(bs, cr, calls))
            && cr' == (if r.Ok? then cr.(claimed := true) else cr)
            && Local(bs, bs', cr.name)
            && (cr.name in bs' <==> cr.name in bs || calls.make.Applied())
            && (cr.name in bs' ==>
                  bs'[cr.name] == Object(
                    if cr.name in bs then bs[cr.name].origin else By(me),
                    BucketBody(if wrotePolicy then cr.spec.policy.value else Body(bs, cr.name).policy,
                               if wroteTags then cr.spec.tags else Body(bs, cr.name).tags,
                               Body(bs, cr.name).empty)))
  {
    var bs0 := Make(bs, cr.name, me, calls.make).0;
    var bs1 := ApplyPolicy(bs0, cr, calls).0;
    CreateKeeps(bs, cr, me, calls);
    assert cr.name in bs0 ==> bs0[cr.name].body == Body(bs, cr.name);
    assert cr.name in bs0 ==> bs1[cr.name].body.tags == Body(bs, cr.name).tags;
  }

  /** Every call that Update needs is answered, and the bucket is there if it makes any. */
  predicate UpdateRuns(bs: Buckets, cr: BucketCR, calls: Calls) {
    && (cr.spec.policy.Some? ==> cr.name in bs && calls.setPolicy.Served?)
    && (cr.spec.tags.Some? ==>
          cr.name in bs && (cr.spec.tags == Some(map[]) || calls.tagsParse) && calls.setTags.Served?)
  }

  /** The same for Update, which removes the tag set for an explicitly empty map. */
  lemma UpdateAnswers(bs: Buckets, cr: BucketCR, calls: Calls)
    ensures var (bs', r) := AfterUpdate(bs, cr, calls);
            var wrotePolicy := cr.spec.policy.Some? && calls.setPolicy.Applied();
            var wroteTags := && (cr.spec.policy.Some? ==> calls.setPolicy.Served?) && cr.spec.tags.Some?
                             && (cr.spec.tags == Some(map[]) || calls.tagsParse) && calls.setTags.Applied();
            && (r.Ok? <==> UpdateRuns(bs, cr, calls))
            && bs'.Keys == bs.Keys && Local(bs, bs', cr.name)
            && (cr.name in bs ==>
                  bs'[cr.name] == Object(
                    bs[cr.name].origin,
                    BucketBody(if wrotePolicy then cr.spec.policy.value else bs[cr.name].body.policy,
                               if !wroteTags then bs[cr.name].body.tags
                               else if cr.spec.tags == Some(map[]) then None else cr.spec.tags,
                               bs[cr.name].body.empty)))
  {
    var bs1 := ApplyPolicy(bs, cr, calls).0;
    UpdateKeeps(bs, cr, 0, calls);
    if cr.spec.tags.Some? && |cr.spec.tags.value| == 0 {
      assert cr.spec.tags.value == map[];
    }
    assert cr.name in bs ==> bs1[cr.name].body.tags == bs[cr.name].body.tags;
  }

  /** Deletion completes exactly if the purge it needs and the removal are answered and the bucket is
      there and empty by then; otherwise the bucket stays, but for the objects purged. */
  lemma DeleteAnswers(bs: Buckets, cr: BucketCR, calls: Calls)
    ensures var (bs', r) := AfterDelete(bs, cr, calls);
            var purges := cr.spec.deleteAll && calls.purge.Applied() && calls.listed;
            var goesOn := cr.spec.deleteAll ==> calls.purge.Served?;
            var empty := cr.status in bs && (bs[cr.status].body.empty || purges);
            && (r.Ok? <==> goesOn && calls.remove.Served? && empty)
            && (bs' == if goesOn && calls.remove.Applied() && empty then bs - {cr.status}
                       else if cr.status in bs then
                         bs[cr.status := bs[cr.status].(body := bs[cr.status].body.(empty := empty))]
                       else bs)
  {
  }

  // ---------------------------------------------------------------- drift repair

  function UpdateMany(bs: Buckets, cr: BucketCR, tries: seq<Calls>): Buckets {
    if tries == [] then bs
    else AfterUpdate(UpdateMany(bs, cr, tries[..|tries| - 1]), cr, tries[|tries| - 1]).0
  }

  /** Nothing differs but the aspects of the resource's own bucket that its spec sets. */
  ghost predicate OnlyManaged(bs: Buckets, bs': Buckets, cr: BucketCR) {
    && bs.Keys == bs'.Keys
    && (forall n :: n in bs && n != cr.name ==> bs'[n] == bs[n])
    && (cr.name in bs ==>
          var (before, after) := (bs[cr.name], bs'[cr.name]);
          && after.origin == before.origin && after.body.empty == before.body.empty
          && (cr.spec.policy.None? ==> after.body.policy == before.body.policy)
          && (cr.spec.tags.None? ==> after.body.tags == before.body.tags))
  }

  lemma UpdateOnlyManaged(bs: Buckets, cr: BucketCR, calls: Calls)
    ensures OnlyManaged(bs, AfterUpdate(bs, cr, calls).0, cr)
  {
  }

  lemma {:induction false} UpdateManyOnlyManaged(bs: Buckets, cr: BucketCR, tries: seq<Calls>)
    ensures OnlyManaged(bs, UpdateMany(bs, cr, tries), cr)
  {
    if tries == [] {
    } else {
      UpdateManyOnlyManaged(bs, cr, tries[..|tries| - 1]);
      UpdateOnlyManaged(UpdateMany(bs, cr, tries[..|tries| - 1]), cr, tries[|tries| - 1]);
    }
  }

  /** After any Updates that stopped anywhere and one that completed, Observe reports the bucket
      up to date, and explicitly empty tags are gone from it; throughout, nothing the spec leaves
      out and no other bucket changed. */
  lemma {:induction false} DriftRepair(bs: Buckets, cr: BucketCR, tries: seq<Calls>, last: Calls)
    requires cr.claimed && cr.name in bs
    requires UpdateRuns(UpdateMany(bs, cr, tries), cr, last)
    ensures var end := AfterUpdate(UpdateMany(bs, cr, tries), cr, last).0;
            && OnlyManaged(bs, end, cr)
            && Observed(end, cr, ALL_SERVED).1 == Ok(Observation(true, true))
            && (cr.spec.policy.Some? ==> end[cr.name].body.policy == cr.spec.policy.value)
            && (cr.spec.tags.Some? ==>
                  end[cr.name].body.tags == if |cr.spec.tags.value| == 0 then None else cr.spec.tags)
  {
    UpdateManyOnlyManaged(bs, cr, tries);
    UpdateOnlyManaged(UpdateMany(bs, cr, tries), cr, last);
  }

  /** A completed Update changes nothing exactly when Observe finds no drift, except that it
      also turns an explicitly empty tag set into none. */
  lemma UpdateNeededIff(bs: Buckets, cr: BucketCR, last: Calls)
    requires cr.claimed && cr.name in bs && UpdateRuns(bs, cr, last)
    ensures AfterUpdate(bs, cr, last).0 == bs <==>
            && Observed(bs, cr, ALL_SERVED).1 == Ok(Observation(true, true))
            && !(cr.spec.tags.Some? && |cr.spec.tags.value| == 0 && bs[cr.name].body.tags.Some?)
  {
    var bs1 := ApplyPolicy(bs, cr, last).0;
    var end := AfterUpdate(bs, cr, last).0;
    assert end[cr.name].body.policy == bs1[cr.name].body.policy;
    assert bs1[cr.name].body.tags == bs[cr.name].body.tags;
    if cr.spec.tags.Some? && |cr.spec.tags.value| == 0 {
      assert cr.spec.tags.value == map[];
    }
  }

  /** A completed Create leaves a claimed bucket that Observe reports up to date, even one that it
      found there. */
  lemma CreateSettles(bs: Buckets, cr: BucketCR, me: nat, calls: Calls)
    requires CreateRuns(bs, cr, calls)
    ensures var (bs', cr', _) := AfterCreate(bs, cr, me, calls);
            && Observed(bs', cr', ALL_SERVED) == (cr'.(status := cr.name), Ok(Observation(true, true)))
            && (cr.spec.policy.None? ==> bs'[cr.name].body.policy == Body(bs, cr.name).policy)
            && (cr.spec.tags.None? ==> bs'[cr.name].body.tags == Body(bs, cr.name).tags)
  {
    var bs0 := Make(bs, cr.name, me, calls.make).0;
    assert cr.name in bs0 && bs0[cr.name].body == Body(bs, cr.name);
  }

  /** With every call served, deletion removes the bucket exactly if it is empty, or is to be emptied
      and all its objects can be listed; otherwise it stays as it was. */
  lemma DeleteRemovesIff(bs: Buckets, cr: BucketCR, listed: bool)
    requires cr.status in bs
    ensures var (bs', r) := AfterDelete(bs, cr, ALL_SERVED.(listed := listed));
            && (r.Ok? <==> bs[cr.status].body.empty || (cr.spec.deleteAll && listed))
            && bs' == if r.Ok? then bs - {cr.status} else bs
  {
  }
}
