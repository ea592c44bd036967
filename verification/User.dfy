/** The User controller: existence guard and claim in Create, a gate in Observe, and an Update that
    takes all policies away and attaches the wanted ones. */
module UserController {
  import opened Outcomes
  import opened Sequences
  import opened Ownership
  import opened PolicyNames

  /** A remote user: the policies attached to it, in order, and its credentials. */
  datatype UserBody = UserBody(attached: seq<string>, secret: string)

  /** The connection secret that the managed reconciler keeps for the resource. */
  datatype Connection = Connection(accessKey: string, secretKey: string)

  /** `policies` is None for Go's nil slice. */
  datatype UserSpec = UserSpec(policies: Option<seq<string>>, connection: Option<Connection>) {
    function Wanted(): seq<string> { if policies.None? then [] else policies.value }
  }

  type Users = map<string, Object<UserBody>>
  type UserCR = Resource<UserSpec>

  /** `works` is whether the live check of the credentials succeeds, `password` the generated
      secret, `publish` whether the connection secret is written. */
  datatype Calls = Calls(
    list: Call, readSecret: Call, works: bool,
    relist: Call, add: Call, password: string, publish: bool,
    info: Call, detach: Call, attach: Call, setUser: Call, remove: Call)

  // ---------------------------------------------------------------- the server

  function Reply(call: Call, served: Result<()>): Result<()> {
    if call.Served? then served else Err(Transient)
  }

  /** Adding or setting a user overrides the secret of one that is there. */
  function PutUser(us: Users, name: string, secret: string, me: nat, call: Call): (Users, Result<()>) {
    (if !call.Applied() then us
     else if name in us then us[name := us[name].(body := us[name].body.(secret := secret))]
     else us[name := Object(By(me), UserBody([], secret))],
     Reply(call, Ok(())))
  }

  /** The names not yet there, appended in order. */
  function AddMissing(attached: seq<string>, names: seq<string>): seq<string> {
    if names == [] then attached
    else
      var most := AddMissing(attached, names[..|names| - 1]);
      if names[|names| - 1] in most then most else most + [names[|names| - 1]]
  }

  function NotIn(names: seq<string>): string -> bool { (name: string) => name !in names }

  function PutPolicies(us: Users, name: string, policies: seq<string>, call: Call): (Users, Result<()>) {
    (if name in us && call.Applied() then us[name := us[name].(body := us[name].body.(attached := policies))] else us,
     Reply(call, if name in us then Ok(()) else Err(NotFound)))
  }

  function Attached(us: Users, name: string): seq<string> {
    if name in us then us[name].body.attached else []
  }

  function Attach(us: Users, name: string, names: seq<string>, call: Call): (Users, Result<()>) {
    PutPolicies(us, name, AddMissing(Attached(us, name), names), call)
  }

  function Detach(us: Users, name: string, names: seq<string>, call: Call): (Users, Result<()>) {
    PutPolicies(us, name, Keep(Attached(us, name), NotIn(names)), call)
  }

  function Remove(us: Users, name: string, call: Call): (Users, Result<()>) {
    (if call.Applied() then us - {name} else us,
     Reply(call, if name in us then Ok(()) else Err(NotFound)))
  }

  class UserServer {
    var users: Users

    method ListUsers(call: Call) returns (r: Result<Users>)
      ensures r == if call.Served? then Ok(users) else Err(Transient)
    {
      r := if call.Served? then Ok(users) else Err(Transient);
    }

    /** The policies come as one comma-joined string. */
    method GetUserInfo(name: string, call: Call) returns (policyName: Result<string>)
      ensures policyName == if !call.Served? then Err(Transient)
                            else if name in users then Ok(Join(users[name].body.attached)) else Err(NotFound)
    {
      if call != Served { return Err(Transient); }
      if name !in users { return Err(NotFound); }
      return Ok(Join(users[name].body.attached));
    }

    method AddUser(name: string, secret: string, me: nat, call: Call) returns (r: Result<()>)
      modifies this
      ensures (users, r) == PutUser(old(users), name, secret, me, call)
    {
      var (after, reply) := PutUser(users, name, secret, me, call);
      users, r := after, reply;
    }

    method AttachPolicy(name: string, names: seq<string>, call: Call) returns (r: Result<()>)
      modifies this
      ensures (users, r) == Attach(old(users), name, names, call)
    {
      var (after, reply) := Attach(users, name, names, call);
      users, r := after, reply;
    }

    method DetachPolicy(name: string, names: seq<string>, call: Call) returns (r: Result<()>)
      modifies this
      ensures (users, r) == Detach(old(users), name, names, call)
    {
      var (after, reply) := Detach(users, name, names, call);
      users, r := after, reply;
    }

    method RemoveUser(name: string, call: Call) returns (r: Result<()>)
      modifies this
      ensures (users, r) == Remove(old(users), name, call)
    {
      var (after, reply) := Remove(users, name, call);
      users, r := after, reply;
    }

    /** Somebody else adds users under names that are free. */
    method Interfere(late: Users)
      modifies this
      ensures users == late + old(users)
    {
      users := late + users;
    }
  }

  // ---------------------------------------------------------------- what each method does

  /** Observe gates on the claim or a name in the status, and clears the status of a user that
      is gone. */
  function Observed(us: Users, cr: UserCR, calls: Calls): (UserCR, Result<Observation>) {
    if !cr.claimed && cr.status == "" then (cr, Ok(Observation(false, false)))
    else
      var seen := cr.(status := cr.name);
      if !calls.list.Served? then (seen, Err(Transient))
      else if cr.name !in us then (cr.(status := ""), Ok(Observation(false, false)))
      else if !EqualPolicies(Join(us[cr.name].body.attached), cr.spec.policies) then
        (seen, Ok(Observation(true, false)))
      else if cr.deleting then (seen, Ok(Observation(true, true)))
      else if !calls.readSecret.Served? || cr.spec.connection.None? then (seen, Err(Transient))
      else (seen, Ok(Observation(true, calls.works)))
  }

  function SetPolicies(us: Users, cr: UserCR, calls: Calls): (Users, Result<()>) {
    if cr.spec.Wanted() == [] then (us, Ok(())) else Attach(us, cr.name, cr.spec.Wanted(), calls.attach)
  }

  /** `late` are users that outsiders add between Create's check and its write. */
  function AfterCreate(us: Users, cr: UserCR, me: nat, late: Users, calls: Calls): (Users, UserCR, Result<()>) {
    if !calls.relist.Served? then (late + us, cr, Err(Transient))
    else if cr.name in us then (late + us, cr, Err(AlreadyExists))
    else
      var (us1, added) := PutUser(late + us, cr.name, calls.password, me, calls.add);
      if added.Err? then (us1, cr, added)
      else
        var (us2, attached) := SetPolicies(us1, cr, calls);
        if attached.Err? then (us2, cr, attached)
        else
          var connection := if calls.publish then Some(Connection(cr.name, calls.password)) else cr.spec.connection;
          (us2, cr.(claimed := true, spec := cr.spec.(connection := connection)), Ok(()))
  }

  function AfterUpdate(us: Users, cr: UserCR, me: nat, calls: Calls): (Users, Result<()>) {
    if !calls.info.Served? then (us, Err(Transient))
    else if cr.name !in us then (us, Err(NotFound))
    else
      var current := Decode(Join(us[cr.name].body.attached));
      var (us1, detached) := if current == [] then (us, Ok(())) else Detach(us, cr.name, current, calls.detach);
      if detached.Err? then (us1, detached)
      else
        var (us2, attached) := SetPolicies(us1, cr, calls);
        if attached.Err? || cr.deleting then (us2, attached)
        else if !calls.readSecret.Served? || cr.spec.connection.None? then (us2, Err(Transient))
        else PutUser(us2, cr.spec.connection.value.accessKey, cr.spec.connection.value.secretKey, me, calls.setUser)
  }

  // ---------------------------------------------------------------- the client

  class User {
    const name: string
    var policies: Option<seq<string>>
    var connection: Option<Connection>
    var claimed: bool
    var status: string
    var deleting: bool

    constructor (name: string, policies: Option<seq<string>>)
      ensures Value() == Resource(name, UserSpec(policies, None), false, "", false)
    {
      this.name, this.policies, connection := name, policies, None;
      claimed, status, deleting := false, "", false;
    }

    function Value(): UserCR reads this {
      Resource(name, UserSpec(policies, connection), claimed, status, deleting)
    }
  }

  class UserClient {
    const ma: UserServer

    constructor (ma: UserServer)
      ensures this.ma == ma
    {
      this.ma := ma;
    }

    method Observe(user: User, calls: Calls) returns (r: Result<Observation>)
      modifies user
      ensures (user.Value(), r) == Observed(ma.users, old(user.Value()), calls)
    {
      if !user.claimed && user.status == "" { return Ok(Observation(false, false)); }
      user.status := user.name;
      var users := ma.ListUsers(calls.list);
      if users.Err? { return Err(users.error); }
      if user.name !in users.value {
        user.status := "";
        return Ok(Observation(false, false));
      }
      if !EqualPolicies(Join(users.value[user.name].body.attached), user.policies) {
        return Ok(Observation(true, false));
      }
      if !user.deleting {
        if calls.readSecret != Served || user.connection.None? { return Err(Transient); }
        if !calls.works { return Ok(Observation(true, false)); }
      }
      return Ok(Observation(true, true));
    }

    method SetUserPolicies(user: User, calls: Calls) returns (r: Result<()>)
      modifies ma
      ensures (ma.users, r) == SetPolicies(old(ma.users), user.Value(), calls)
    {
      if user.policies.None? || |user.policies.value| == 0 { return Ok(()); }
      r := ma.AttachPolicy(user.name, user.policies.value, calls.attach);
    }

    method Create(user: User, me: nat, late: Users, calls: Calls) returns (r: Result<()>)
      modifies ma, user
      ensures (ma.users, user.Value(), r) == AfterCreate(old(ma.users), old(user.Value()), me, late, calls)
    {
      var users := ma.ListUsers(calls.relist);
      ma.Interfere(late);
      if users.Err? { return Err(users.error); }
      if user.name in users.value { return Err(AlreadyExists); }
      r := ma.AddUser(user.name, calls.password, me, calls.add);
      if r.Err? { return; }
      r := SetUserPolicies(user, calls);
      if r.Err? { return; }
      user.claimed := true;
      if calls.publish { user.connection := Some(Connection(user.name, calls.password)); }
    }

    method Update(user: User, me: nat, calls: Calls) returns (r: Result<()>)
      modifies ma
      ensures (ma.users, r) == AfterUpdate(old(ma.users), user.Value(), me, calls)
    {
      var policyName := ma.GetUserInfo(user.name, calls.info);
      if policyName.Err? { return Err(policyName.error); }
      var policies := Split(policyName.value);
      if policies[0] == "" { policies := []; }
      if |policies| > 0 {
        r := ma.DetachPolicy(user.name, policies, calls.detach);
        if r.Err? { return; }
      }
      r := SetUserPolicies(user, calls);
      if r.Err? { return; }
      if !user.deleting {
        if calls.readSecret != Served || user.connection.None? { return Err(Transient); }
        r := ma.AddUser(user.connection.value.accessKey, user.connection.value.secretKey, me, calls.setUser);
      }
    }

    method Delete(user: User, calls: Calls) returns (r: Result<()>)
      modifies ma
      ensures (ma.users, r) == Remove(old(ma.users), user.name, calls.remove)
    {
      r := ma.RemoveUser(user.name, calls.remove);
    }
  }
}
