/** Roles: what a login may do, and assigning a role without losing the last login that can. */
module Roles {
  import opened Wrappers

  const MANAGE := "roles.manage"
  const ALL: set<string> := {
    "console.access", "mail.manage", "mail.send", "dns.manage", "security.manage", "system.manage",
    "users.manage", "audit.view", MANAGE, "setup.manage", "agents.manage", "marketing.send" }

  /** The JSON value stored as a role's permissions; nothing keeps it from being something else than a
      list. */
  datatype Json = List(items: seq<string>) | Object(keys: seq<string>) | Text(text: string) | Number(value: int) | Null

  datatype User = User(active: bool, superuser: bool, staff: bool, role: Option<string>)

  /** Logins by id, and the permissions of every role by its key. */
  datatype State = State(users: map<nat, User>, roles: map<string, Json>)

  function Known(codes: seq<string>): set<string> {
    set c | c in codes && c in ALL
  }

  /** `effective_permissions`: only a list grants anything; a role that does not exist grants all. */
  function Effective(roles: map<string, Json>, u: User): set<string> {
    if !u.active then {}
    else if u.superuser then ALL
    else if !u.staff then {}
    else if u.role.None? || u.role.value !in roles then ALL
    else
      match roles[u.role.value]
      case List(items) => Known(items)
      case _ => {}
  }

  function Characters(text: string): seq<string> {
    seq(|text|, i requires 0 <= i < |text| => [text[i]])
  }

  /** `for c in (permissions or [])`, as `assign` reads a role: whatever can be iterated. */
  function Iterated(permissions: Json): Option<seq<string>> {
    match permissions
    case List(items) => Some(items)
    case Object(keys) => Some(keys)
    case Text(text) => Some(Characters(text))
    case Number(value) => if value == 0 then Some([]) else None
    case Null => Some([])
  }

  /** Lists, the keys of objects and the characters of texts can be looked through, and so can what counts as
      nothing; other numbers cannot. */
  lemma IteratedIs(items: seq<string>, value: int)
    ensures Iterated(List(items)) == Iterated(Object(items)) == Some(items)
    ensures Iterated(Null) == Iterated(Number(0)) == Some([])
    ensures value != 0 ==> Iterated(Number(value)) == None
  {
  }

  predicate Holds(roles: map<string, Json>, u: User) {
    MANAGE in Effective(roles, u)
  }

  /** Every permission there is. */
  predicate IsCode(code: string) {
    || code == "console.access" || code == "mail.manage" || code == "mail.send" || code == "dns.manage"
    || code == "security.manage" || code == "system.manage" || code == "users.manage" || code == "audit.view"
    || code == "roles.manage" || code == "setup.manage" || code == "agents.manage" || code == "marketing.send"
  }

  /** Who is granted a permission: an active superuser; active staff without a role, or with one that does not
      exist any more; and active staff whose role lists it. */
  predicate Grants(roles: map<string, Json>, u: User, code: string) {
    && u.active && IsCode(code)
    && (u.superuser
        || (u.staff && (u.role.None? || u.role.value !in roles
                        || (roles[u.role.value].List? && code in roles[u.role.value].items))))
  }

  lemma EffectiveIs(roles: map<string, Json>, u: User, code: string)
    ensures code in Effective(roles, u) <==> Grants(roles, u, code)
  {
    if u.active && !u.superuser && u.staff && u.role.Some? && u.role.value in roles && roles[u.role.value].List? {
      KnownIs(roles[u.role.value].items, code);
    }
    AllCodes(code);
  }

  lemma KnownIs(codes: seq<string>, code: string)
    ensures code in Known(codes) <==> code in codes && IsCode(code)
  {
    AllCodes(code);
  }

  lemma AllCodes(code: string)
    ensures code in ALL <==> IsCode(code)
  {
  }

  /** Some active login can grant roles. */
  predicate SomeHolder(s: State) {
    exists k :: k in s.users && s.users[k].active && Grants(s.roles, s.users[k], "roles.manage")
  }

  /** Some other active login can. */
  predicate OtherHolder(s: State, id: nat) {
    exists k :: k in s.users && k != id && s.users[k].active && Grants(s.roles, s.users[k], "roles.manage")
  }

  lemma HoldsIs(roles: map<string, Json>, u: User)
    ensures Holds(roles, u) <==> Grants(roles, u, "roles.manage")
  {
    EffectiveIs(roles, u, MANAGE);
  }

  lemma HoldersAre(s: State)
    ensures forall k :: k in s.users ==> (Holds(s.roles, s.users[k]) <==> Grants(s.roles, s.users[k], "roles.manage"))
  {
    forall k | k in s.users ensures Holds(s.roles, s.users[k]) <==> Grants(s.roles, s.users[k], "roles.manage") {
      HoldsIs(s.roles, s.users[k]);
    }
  }

  datatype Refusal = NoSuchRole | LastHolder | NotIterable

  function Verdict(s: State, id: nat, key: Option<string>): Option<Refusal>
    requires id in s.users
  {
    var u := s.users[id];
    if key.Some? && key.value !in s.roles then Some(NoSuchRole)
    else if u.superuser || key.None? then None
    else
      match Iterated(s.roles[key.value])
      case None => Some(NotIterable)
      case Some(codes) =>
        if Holds(s.roles, u) && MANAGE !in Known(codes) && !OtherHolder(s, id) then Some(LastHolder) else None
  }

  /** When an assignment is refused: the role does not exist; its permissions cannot be looked through; or the
      login is no superuser, can grant roles as nobody else can, and the role does not name that permission. */
  lemma RefusedWhen(s: State, id: nat, key: Option<string>)
    requires id in s.users
    ensures Verdict(s, id, key) == Some(NoSuchRole) <==> key.Some? && key.value !in s.roles
    ensures Verdict(s, id, key) == Some(NotIterable)
       <==> key.Some? && key.value in s.roles && !s.users[id].superuser && Iterated(s.roles[key.value]).None?
    ensures Verdict(s, id, key) == Some(LastHolder)
       <==> && key.Some? && key.value in s.roles && !s.users[id].superuser
            && Iterated(s.roles[key.value]).Some? && "roles.manage" !in Iterated(s.roles[key.value]).value
            && Grants(s.roles, s.users[id], "roles.manage") && !OtherHolder(s, id)
  {
    HoldsIs(s.roles, s.users[id]);
    if key.Some? && key.value in s.roles && Iterated(s.roles[key.value]).Some? {
      KnownIs(Iterated(s.roles[key.value]).value, MANAGE);
    }
  }

  /** `assign`, with the key already stripped and lowered. */
  function After(s: State, id: nat, key: Option<string>): State
    requires id in s.users
  {
    if Verdict(s, id, key).Some? then s
    else s.(users := s.users[id := s.users[id].(role := key)])
  }

  /** The guard looks at something else than what takes effect: the role's permissions are a JSON
      object with a member "roles.manage". */
  predicate Hollow(permissions: Json) {
    permissions.Object? && MANAGE in permissions.keys
  }

  lemma CharactersAreShort(text: string)
    ensures forall c :: c in Characters(text) ==> |c| == 1
    ensures MANAGE !in Characters(text)
  {
    assert |MANAGE| == 12;
  }

  lemma OnlyObjectsAreHollow(permissions: Json)
    requires Iterated(permissions).Some? && MANAGE in Known(Iterated(permissions).value)
    ensures permissions.List? || Hollow(permissions)
  {
    if permissions.Text? {
      CharactersAreShort(permissions.text);
    }
  }

  /** Giving a hollow role to the last holder, who is no superuser. */
  predicate LosesLast(s: State, id: nat, key: Option<string>)
    requires id in s.users
  {
    && key.Some? && key.value in s.roles && Hollow(s.roles[key.value])
    && !s.users[id].superuser && Grants(s.roles, s.users[id], "roles.manage") && !OtherHolder(s, id)
  }

  /** Whoever is given whatever role: someone can still grant roles afterwards, unless a hollow role
      goes to the last holder, and then nobody can. */
  lemma SomeoneStays(s: State, id: nat, key: Option<string>)
    requires id in s.users && SomeHolder(s)
    ensures SomeHolder(After(s, id, key)) <==> !LosesLast(s, id, key)
  {
    var t := After(s, id, key);
    var u, v := s.users[id], t.users[id];
    HoldersAre(s);
    HoldersAre(t);
    assert LosesLast(s, id, key) ==> MANAGE in Known(s.roles[key.value].keys);
    if Verdict(s, id, key).None? {
      assert forall k :: k in t.users && k != id ==> k in s.users && t.users[k] == s.users[k];
      assert OtherHolder(s, id) <==> OtherHolder(t, id);
      if !OtherHolder(s, id) {
        assert Holds(s.roles, u);
        assert u.active && (u.superuser || u.staff);
        if !u.superuser && key.Some? {
          var codes := Iterated(s.roles[key.value]).value;
          assert MANAGE in Known(codes);
          OnlyObjectsAreHollow(s.roles[key.value]);
        }
        assert Holds(t.roles, v) <==> !LosesLast(s, id, key);
        assert SomeHolder(t) <==> Holds(t.roles, v);
      } else {
        var k :| k in s.users && k != id && Grants(s.roles, s.users[k], "roles.manage");
        assert k in t.users && Grants(t.roles, t.users[k], "roles.manage");
      }
    }
  }

  // ---------------------------------------------------------------- runs

  datatype Assignment = Assignment(id: nat, key: Option<string>)

  function Final(s: State, run: seq<Assignment>): (t: State)
    ensures t.roles == s.roles && t.users.Keys == s.users.Keys
  {
    if run == [] then s
    else
      var before, a := Final(s, run[..|run| - 1]), run[|run| - 1];
      if a.id in before.users then After(before, a.id, a.key) else before
  }

  lemma FinalIs(s: State, run: seq<Assignment>, a: Assignment)
    ensures Final(s, []) == s && PutAll(s, []) == s
    ensures a.id in s.users ==> Final(s, run + [a]) == After(Final(s, run), a.id, a.key)
    ensures a.id in s.users ==> PutAll(s, run + [a]) == Put(PutAll(s, run), a.id, a.key)
  {
    assert (run + [a])[..|run|] == run;
  }

  /** Over every sequence of assignments, to any mix of logins: as long as every role's permissions are
      what they are meant to be, some active login can still grant roles. */
  lemma {:induction false} RunKeepsSomeone(s: State, run: seq<Assignment>)
    requires SomeHolder(s) && forall k :: k in s.roles ==> !Hollow(s.roles[k])
    ensures SomeHolder(Final(s, run))
  {
    if run != [] {
      RunKeepsSomeone(s, run[..|run| - 1]);
      var before, a := Final(s, run[..|run| - 1]), run[|run| - 1];
      if a.id in before.users {
        SomeoneStays(before, a.id, a.key);
      }
    }
  }

  // ---------------------------------------------------------------- assignments that overlap

  /** What an assignment does once its guard has let it through. */
  function Put(s: State, id: nat, key: Option<string>): State
    requires id in s.users
  {
    s.(users := s.users[id := s.users[id].(role := key)])
  }

  /** The login still has the permission afterwards, or another one has it by then. */
  predicate StillHeld(s: State, id: nat, key: Option<string>)
    requires id in s.users
  {
    OtherHolder(s, id) || Grants(s.roles, s.users[id].(role := key), "roles.manage")
  }

  /** Guard and write are separate statements. A write is harmless exactly when what the guard asks for holds at
      that moment. */
  lemma PutKeepsSomeone(s: State, id: nat, key: Option<string>)
    requires id in s.users
    ensures SomeHolder(Put(s, id, key)) <==> StillHeld(s, id, key)
  {
    var t := Put(s, id, key);
    assert t.users[id] == s.users[id].(role := key);
    assert forall k :: k in t.users && k != id ==> k in s.users && t.users[k] == s.users[k];
    if OtherHolder(s, id) {
      var k :| k in s.users && k != id && Grants(s.roles, s.users[k], "roles.manage");
      assert k in t.users && Grants(t.roles, t.users[k], "roles.manage");
    }
  }

  /** What overlapping assignments that were let through write, in the order they write it. */
  function PutAll(s: State, run: seq<Assignment>): (t: State)
    ensures t.roles == s.roles && t.users.Keys == s.users.Keys
  {
    if run == [] then s
    else
      var before, a := PutAll(s, run[..|run| - 1]), run[|run| - 1];
      if a.id in before.users then Put(before, a.id, a.key) else before
  }

  predicate PutsStillHeld(s: State, run: seq<Assignment>) {
    run == [] ||
    var before, a := PutAll(s, run[..|run| - 1]), run[|run| - 1];
    PutsStillHeld(s, run[..|run| - 1]) && (a.id in before.users ==> StillHeld(before, a.id, a.key))
  }

  /** However their guards and writes interleave: when what the guard asks for still holds at every write, some
      active login can grant roles afterwards. */
  lemma {:induction false} PutsKeepSomeone(s: State, run: seq<Assignment>)
    requires SomeHolder(s) && PutsStillHeld(s, run)
    ensures SomeHolder(PutAll(s, run))
  {
    if run != [] {
      PutsKeepSomeone(s, run[..|run| - 1]);
      var before, a := PutAll(s, run[..|run| - 1]), run[|run| - 1];
      if a.id in before.users {
        PutKeepsSomeone(before, a.id, a.key);
      }
    }
  }

  /** Of two holders each is let go because the other one stays: then nobody can grant roles. */
  lemma TwoAssignmentsLockOut()
    ensures var owner := User(true, false, true, None);
            var s := State(map[0 := owner, 1 := owner], map["viewer" := List([])]);
            && SomeHolder(s) && Verdict(s, 0, Some("viewer")) == None && Verdict(s, 1, Some("viewer")) == None
            && !SomeHolder(Put(Put(s, 0, Some("viewer")), 1, Some("viewer")))
  {
    var owner := User(true, false, true, None);
    var s := State(map[0 := owner, 1 := owner], map["viewer" := List([])]);
    assert Grants(s.roles, s.users[0], "roles.manage") && Grants(s.roles, s.users[1], "roles.manage");
    var t := Put(Put(s, 0, Some("viewer")), 1, Some("viewer"));
    assert !Grants(t.roles, t.users[0], "roles.manage") && !Grants(t.roles, t.users[1], "roles.manage");
  }

  /** The one owner of an installation, given a role whose permissions are `{"roles.manage": true}`. */
  lemma HollowRoleLocksOut()
    ensures var s := State(map[0 := User(true, false, true, None)], map["custom" := Object([MANAGE])]);
            SomeHolder(s) && Verdict(s, 0, Some("custom")) == None && !SomeHolder(After(s, 0, Some("custom")))
  {
    var s := State(map[0 := User(true, false, true, None)], map["custom" := Object([MANAGE])]);
    assert Grants(s.roles, s.users[0], "roles.manage");
    assert [MANAGE][0] == MANAGE;
    assert MANAGE in Known([MANAGE]);
    SomeoneStays(s, 0, Some("custom"));
  }

  // ---------------------------------------------------------------- the service

  class RoleService {
    var users: map<nat, User>
    var roles: map<string, Json>

    constructor (users: map<nat, User>, roles: map<string, Json>)
      ensures Model() == State(users, roles)
    {
      this.users, this.roles := users, roles;
    }

    ghost function Model(): State
      reads this
    {
      State(users, roles)
    }

    method HoldersOf(excluded: nat) returns (found: bool)
      ensures found <==> OtherHolder(Model(), excluded)
    {
      var todo := users.Keys - {excluded};
      while todo != {}
        invariant todo <= users.Keys - {excluded}
        invariant forall k :: k in users && k != excluded && k !in todo ==> !Grants(roles, users[k], "roles.manage")
      {
        var candidate :| candidate in todo;
        HoldsIs(roles, users[candidate]);
        if MANAGE in Effective(roles, users[candidate]) {
          return true;
        }
        todo := todo - {candidate};
      }
      found := false;
    }

    method Assign(id: nat, key: Option<string>) returns (refusal: Option<Refusal>)
      requires id in users
      modifies this`users
      ensures refusal == old(Verdict(Model(), id, key)) && Model() == old(After(Model(), id, key))
      ensures users == if refusal == None then old(users)[id := old(users)[id].(role := key)] else old(users)
    {
      var user := users[id];
      if key.Some? && key.value !in roles {
        return Some(NoSuchRole);
      }
      if !user.superuser && key.Some? {
        var codes := Iterated(roles[key.value]);
        if codes.None? {
          return Some(NotIterable);
        }
        if MANAGE in Effective(roles, user) && MANAGE !in Known(codes.value) {
          var others := HoldersOf(id);
          if !others {
            return Some(LastHolder);
          }
        }
      }
      users := users[id := user.(role := key)];
      refusal := None;
    }
  }
}
