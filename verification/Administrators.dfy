/** Accounts and who administers them (internal/store/users.go, internal/api/users.go,
    internal/auth/ingress.go). Requests run one at a time and the database does not fail. */
module Administrators {

  datatype Role = Admin | Operator | Viewer | UnknownRole(name: string)

  datatype User = User(
    id: string,
    email: string,
    name: string,
    role: Role,
    provider: string,
    subject: string,
    disabled: bool)

  type Users = map<string, User>

  const PROVIDER_LOCAL := "local"
  const PROVIDER_INGRESS := "homeassistant"

  predicate ValidRole(r: Role) {
    !r.UnknownRole?
  }

  /** An administrator who can sign in. */
  predicate Active(u: User) {
    u.role == Admin && !u.disabled
  }

  function Admins(users: Users): set<string> {
    set id | id in users && Active(users[id])
  }

  function CountAdmins(users: Users): nat {
    |Admins(users)|
  }

  ghost predicate HasAdmin(users: Users) {
    exists id :: id in users && Active(users[id])
  }

  datatype Outcome = Done | NotFound | Conflict | LastAdministrator | OwnAccount | Invalid | AccountDisabled

  /** Accounts are stored under their id; email addresses are unique, and so are provider subjects. */
  ghost predicate Keyed(users: Users) {
    forall id :: id in users ==> users[id].id == id && ValidRole(users[id].role)
  }

  predicate EmailTaken(users: Users, id: string, email: string) {
    exists k :: k in users && k != id && users[k].email == email
  }

  predicate SubjectTaken(users: Users, provider: string, subject: string) {
    subject != "" && exists k :: k in users && users[k].provider == provider && users[k].subject == subject
  }

  /** Creating an account, whose email address is already normalised. */
  function Created(users: Users, u: User): (Users, Outcome) {
    if u.email == "" || !ValidRole(u.role) then (users, Invalid)
    else if u.id in users || EmailTaken(users, u.id, u.email) || SubjectTaken(users, u.provider, u.subject)
    then (users, Conflict)
    else (users[u.id := u], Done)
  }

  /** Writing the mutable fields of an account. */
  function Updated(users: Users, u: User): (Users, Outcome) {
    if !ValidRole(u.role) then (users, Invalid)
    else if u.id !in users then (users, NotFound)
    else if EmailTaken(users, u.id, u.email) then (users, Conflict)
    else (users[u.id := users[u.id].(email := u.email, name := u.name, role := u.role, disabled := u.disabled)], Done)
  }

  datatype Change = Change(email: string, name: string, role: Role, disabled: bool)

  datatype Identity = Identity(subject: string, username: string, displayName: string)

  /** What an operator configured for requests that arrive through Home Assistant. */
  datatype Ingress = Ingress(
    adminUsers: seq<string>,
    defaultRole: Role,
    trim: string -> string,
    sameFold: (string, string) -> bool,
    emailOf: Identity -> string)

  function RoleFor(cfg: Ingress, who: Identity, names: seq<string>): Role {
    if names == [] then if ValidRole(cfg.defaultRole) then cfg.defaultRole else Viewer
    else
      var admin := cfg.trim(names[0]);
      if admin != "" && (cfg.sameFold(admin, who.subject) || cfg.sameFold(admin, who.username)) then Admin
      else RoleFor(cfg, who, names[1..])
  }

  function NameFor(who: Identity): string {
    if who.displayName != "" then who.displayName
    else if who.username != "" then who.username
    else "Home Assistant user"
  }

  datatype Policy = Policy(normalize: string -> string, validEmail: string -> bool, ingress: Ingress)

  /** No two accounts share a provider subject. */
  ghost predicate SubjectsUnique(users: Users) {
    forall i, j :: i in users && j in users && SameSubject(users[i], users[j]) ==> i == j
  }

  predicate SameSubject(a: User, b: User) {
    a.subject != "" && a.provider == b.provider && a.subject == b.subject
  }

  ghost predicate Sound(users: Users) {
    Keyed(users) && SubjectsUnique(users)
  }

  // The requests, as functions of the accounts.

  function AfterCreate(p: Policy, users: Users, u: User): (Users, Outcome) {
    Created(users, u.(email := p.normalize(u.email),
                      provider := if u.provider == "" then PROVIDER_LOCAL else u.provider))
  }

  function Losing(u: User, req: Change): bool {
    u.role == Admin && !u.disabled && (req.role != Admin || req.disabled)
  }

  function AfterUpdate(p: Policy, users: Users, actor: string, id: string, req: Change): (Users, Outcome) {
    if !ValidRole(req.role) then (users, Invalid)
    else if id !in users then (users, NotFound)
    else if Losing(users[id], req) && CountAdmins(users) <= 1 then (users, LastAdministrator)
    else if actor == id && req.disabled then (users, OwnAccount)
    else if !p.validEmail(req.email) then (users, Invalid)
    else
      Updated(users, users[id].(email := p.normalize(req.email), name := req.name,
                                role := req.role, disabled := req.disabled))
  }

  function AfterDelete(users: Users, actor: string, id: string): (Users, Outcome) {
    if actor == id then (users, OwnAccount)
    else if id !in users then (users, NotFound)
    else if Active(users[id]) && CountAdmins(users) <= 1 then (users, LastAdministrator)
    else (users - {id}, Done)
  }

  datatype Lookup = Missing | Found(user: User)

  predicate Holds(u: User, subject: string) {
    u.provider == PROVIDER_INGRESS && u.subject == subject
  }

  ghost function Holder(users: Users, subject: string): Lookup {
    if exists id :: id in users && Holds(users[id], subject) then
      var id :| id in users && Holds(users[id], subject);
      Found(users[id])
    else Missing
  }

  /** The role a request arrives with: whoever comes while there is no administrator becomes one. */
  function ArrivingRole(p: Policy, users: Users, who: Identity): Role {
    if CountAdmins(users) == 0 then Admin else RoleFor(p.ingress, who, p.ingress.adminUsers)
  }

  function NewAccount(p: Policy, users: Users, who: Identity, newId: string): User {
    User(newId, p.ingress.emailOf(who), NameFor(who), ArrivingRole(p, users, who), PROVIDER_INGRESS, who.subject, false)
  }

  /** A request through Home Assistant finds or creates the account of its sender and re-derives its role,
      but never takes the role from the last administrator. */
  ghost function AfterEnter(p: Policy, users: Users, who: Identity, newId: string): (Users, Outcome) {
    match Holder(users, who.subject)
    case Missing => AfterCreate(p, users, NewAccount(p, users, who, newId))
    case Found(u) => Entered(p, users, u, ArrivingRole(p, users, who))
  }

  function Entered(p: Policy, users: Users, u: User, role: Role): (Users, Outcome) {
    if u.disabled then (users, AccountDisabled)
    else if u.role == role then (users, Done)
    else if u.role == Admin && CountAdmins(users) <= 1 then (users, Done)
    else Updated(users, u.(role := role, email := p.normalize(u.email)))
  }

  /** The user table and the requests that change it. */
  class Service {
    const policy: Policy
    var users: Users

    ghost predicate Valid()
      reads this
    {
      Sound(users)
    }

    constructor (policy: Policy)
      ensures Valid() && users == map[] && this.policy == policy
    {
      this.policy, users := policy, map[];
    }

    method CreateUser(u: User) returns (r: Outcome)
      requires Valid()
      modifies this
      ensures (users, r) == AfterCreate(policy, old(users), u)
      ensures Valid()
    {
      CreateKeeps(policy, users, u);
      var v := u.(email := policy.normalize(u.email),
                  provider := if u.provider == "" then PROVIDER_LOCAL else u.provider);
      if v.email == "" || !ValidRole(v.role) { return Invalid; }
      if v.id in users || EmailTaken(users, v.id, v.email) || SubjectTaken(users, v.provider, v.subject) {
        return Conflict;
      }
      users := users[v.id := v];
      return Done;
    }

    /** An administrator changes an account. */
    method UpdateUser(actor: string, id: string, req: Change) returns (r: Outcome)
      requires Valid()
      modifies this
      ensures (users, r) == AfterUpdate(policy, old(users), actor, id, req)
      ensures Valid()
    {
      UpdateKeeps(policy, users, actor, id, req);
      if !ValidRole(req.role) { return Invalid; }
      if id !in users { return NotFound; }
      var existing := users[id];
      var losing := existing.role == Admin && !existing.disabled && (req.role != Admin || req.disabled);
      if losing && CountAdmins(users) <= 1 { return LastAdministrator; }
      if actor == id && req.disabled { return OwnAccount; }
      if !policy.validEmail(req.email) { return Invalid; }
      r := Write(existing.(email := policy.normalize(req.email), name := req.name,
                           role := req.role, disabled := req.disabled));
    }

    /** Writes the mutable fields of an account. */
    method Write(u: User) returns (r: Outcome)
      modifies this
      ensures (users, r) == Updated(old(users), u)
    {
      if !ValidRole(u.role) { return Invalid; }
      if u.id !in users { return NotFound; }
      if EmailTaken(users, u.id, u.email) { return Conflict; }
      users := users[u.id := users[u.id].(email := u.email, name := u.name, role := u.role, disabled := u.disabled)];
      return Done;
    }

    /** An administrator deletes an account. */
    method DeleteUser(actor: string, id: string) returns (r: Outcome)
      requires Valid()
      modifies this
      ensures (users, r) == AfterDelete(old(users), actor, id)
      ensures Valid()
    {
      if actor == id { return OwnAccount; }
      if id !in users { return NotFound; }
      if Active(users[id]) && CountAdmins(users) <= 1 { return LastAdministrator; }
      users := users - {id};
      return Done;
    }

    /** Finds or creates the account of a Home Assistant identity. */
    method ResolveIngressUser(who: Identity, newId: string) returns (r: Outcome)
      requires Valid() && who.subject != ""
      modifies this
      ensures (users, r) == AfterEnter(policy, old(users), who, newId)
      ensures Valid()
    {
      EnterKeeps(policy, users, who, newId);
      var role := RoleFor(policy.ingress, who, policy.ingress.adminUsers);
      if CountAdmins(users) == 0 { role := Admin; }
      var found := BySubject(who.subject);
      if found.Found? {
        var u := found.user;
        if u.disabled { return AccountDisabled; }
        if u.role != role {
          if u.role == Admin && role != Admin && CountAdmins(users) <= 1 { return Done; }
          r := Write(u.(role := role, email := policy.normalize(u.email)));
          return;
        }
        return Done;
      }
      var email := policy.ingress.emailOf(who);
      r := CreateUser(User(newId, email, NameFor(who), role, PROVIDER_INGRESS, who.subject, false));
    }

    /** The account of a Home Assistant identity. */
    method BySubject(subject: string) returns (l: Lookup)
      requires Valid() && subject != ""
      ensures l == Holder(users, subject)
    {
      var todo := users.Keys;
      while todo != {}
        invariant todo <= users.Keys
        invariant forall id :: id in users && id !in todo ==> !Holds(users[id], subject)
      {
        var id :| id in todo;
        if Holds(users[id], subject) {
          HolderIs(users, subject, id);
          return Found(users[id]);
        }
        todo := todo - {id};
      }
      return Missing;
    }
  }

  lemma HolderIs(users: Users, subject: string, id: string)
    requires SubjectsUnique(users) && subject != "" && id in users && Holds(users[id], subject)
    ensures Holder(users, subject) == Found(users[id])
  {
    var h := Holder(users, subject);
    assert h.Found? && Holds(h.user, subject);
    var k :| k in users && users[k] == h.user;
    assert SameSubject(users[k], users[id]);
  }

  lemma RoleForValid(cfg: Ingress, who: Identity, names: seq<string>)
    ensures ValidRole(RoleFor(cfg, who, names))
  {
  }

  /** Counting at most one administrator means the account is the only one, if it is one. */
  lemma OnlyAdmin(users: Users, id: string)
    requires id in users
    ensures Active(users[id]) && CountAdmins(users) <= 1 <==> Admins(users) == {id}
  {
    if Active(users[id]) {
      assert id in Admins(users);
      if CountAdmins(users) <= 1 {
        assert |Admins(users) - {id}| == 0;
        assert Admins(users) == {id};
      }
    }
  }

  lemma NoAdmins(users: Users)
    ensures CountAdmins(users) == 0 <==> !HasAdmin(users)
  {
    if id :| id in users && Active(users[id]) { assert id in Admins(users); }
    if CountAdmins(users) != 0 { var id :| id in Admins(users); }
  }

  /** If an administrator is not the only one, there is another. */
  lemma AnotherAdmin(users: Users, id: string)
    requires id in users
    ensures HasAdmin(users) && Admins(users) != {id} ==> exists k :: k != id && k in users && Active(users[k])
  {
    if HasAdmin(users) && Admins(users) != {id} {
      var k :| k in users && Active(users[k]);
      assert k in Admins(users);
      if k == id {
        var others := Admins(users) - {id};
        assert Admins(users) == others + {id};
        var j :| j in others;
        assert j != id && j in users && Active(users[j]);
      }
    }
  }

  /** Changing one account keeps every other administrator. */
  lemma StillAdmin(before: Users, after: Users, id: string)
    requires forall k :: k in before && k != id ==> k in after && after[k] == before[k]
    ensures (exists k :: k != id && k in before && Active(before[k])) ==> HasAdmin(after)
    ensures id in after && Active(after[id]) ==> HasAdmin(after)
  {
  }

  lemma CreateKeeps(p: Policy, users: Users, u: User)
    requires Sound(users)
    ensures var after := AfterCreate(p, users, u).0;
      Sound(after) && (HasAdmin(users) ==> HasAdmin(after))
  {
    var after := AfterCreate(p, users, u).0;
    if id :| id in users && Active(users[id]) { assert after[id] == users[id]; }
  }

  /** Writing an account that is not the only administrator, or that stays one, keeps an administrator. */
  lemma UpdatedKeeps(users: Users, u: User)
    requires Sound(users) && (u.id in users ==> u.provider == users[u.id].provider && u.subject == users[u.id].subject)
    ensures Sound(Updated(users, u).0)
    ensures HasAdmin(users) && (Active(u) || Admins(users) != {u.id}) ==> HasAdmin(Updated(users, u).0)
  {
    var after := Updated(users, u).0;
    if u.id in users {
      AnotherAdmin(users, u.id);
      StillAdmin(users, after, u.id);
    }
  }

  lemma UpdateKeeps(p: Policy, users: Users, actor: string, id: string, req: Change)
    requires Sound(users)
    ensures var after := AfterUpdate(p, users, actor, id, req).0;
      Sound(after) && (HasAdmin(users) ==> HasAdmin(after))
  {
    if id in users {
      OnlyAdmin(users, id);
      UpdatedKeeps(users,
        users[id].(email := p.normalize(req.email), name := req.name, role := req.role, disabled := req.disabled));
      if Admins(users) == {id} { assert id in Admins(users); }
    }
  }

  lemma DeleteKeeps(users: Users, actor: string, id: string)
    requires Sound(users)
    ensures var after := AfterDelete(users, actor, id).0;
      Sound(after) && (HasAdmin(users) ==> HasAdmin(after))
  {
    if id in users {
      OnlyAdmin(users, id);
      AnotherAdmin(users, id);
      StillAdmin(users, AfterDelete(users, actor, id).0, id);
      if Admins(users) == {id} { assert id in Admins(users); }
    }
  }

  /** Every request through Home Assistant that succeeds leaves an administrator. */
  lemma EnterKeeps(p: Policy, users: Users, who: Identity, newId: string)
    requires Sound(users) && who.subject != ""
    ensures var (after, r) := AfterEnter(p, users, who, newId);
      && Sound(after)
      && (HasAdmin(users) ==> HasAdmin(after))
      && (r == Done ==> HasAdmin(after))
  {
    RoleForValid(p.ingress, who, p.ingress.adminUsers);
    NoAdmins(users);
    var (after, r) := AfterEnter(p, users, who, newId);
    match Holder(users, who.subject)
    case Missing =>
      CreateKeeps(p, users, NewAccount(p, users, who, newId));
      if r == Done && !HasAdmin(users) { assert Active(after[newId]); }
    case Found(u) =>
      EnteredKeeps(p, users, u, ArrivingRole(p, users, who));
  }

  lemma EnteredKeeps(p: Policy, users: Users, u: User, role: Role)
    requires Sound(users) && u.id in users && users[u.id] == u
    requires !HasAdmin(users) ==> role == Admin
    ensures var (after, r) := Entered(p, users, u, role);
      && Sound(after)
      && (HasAdmin(users) ==> HasAdmin(after))
      && (r == Done ==> HasAdmin(after))
  {
    NoAdmins(users);
    OnlyAdmin(users, u.id);
    var v := u.(role := role, email := p.normalize(u.email));
    UpdatedKeeps(users, v);
    if Admins(users) == {u.id} { assert u.id in Admins(users); }
    var (after, r) := Entered(p, users, u, role);
    if r == Done && !HasAdmin(users) { assert Active(after[u.id]); }
  }

  /** The last administrator is never demoted by their own request. */
  lemma LastAdministratorStays(p: Policy, users: Users, who: Identity, newId: string, id: string)
    requires Sound(users) && who.subject != "" && Admins(users) == {id} && Holds(users[id], who.subject)
    ensures var (after, r) := AfterEnter(p, users, who, newId);
      r == Done && after == users
  {
    assert id in Admins(users);
    HolderIs(users, who.subject, id);
  }

  /** An update is refused for the last administrator's sake exactly when it would leave none. */
  lemma RefusedUpdates(p: Policy, users: Users, actor: string, id: string, req: Change)
    requires Sound(users)
    ensures AfterUpdate(p, users, actor, id, req).1 == LastAdministrator <==>
      ValidRole(req.role) && Admins(users) == {id} && !(req.role == Admin && !req.disabled)
  {
    if id in users {
      OnlyAdmin(users, id);
    }
    if Admins(users) == {id} { assert id in Admins(users); }
  }

  /** A deletion is refused for the same reason exactly when it is somebody else deleting the only one. */
  lemma RefusedDeletions(users: Users, actor: string, id: string)
    requires Sound(users)
    ensures AfterDelete(users, actor, id).1 == LastAdministrator <==> actor != id && Admins(users) == {id}
  {
    if id in users { OnlyAdmin(users, id); }
    if Admins(users) == {id} { assert id in Admins(users); }
  }

  // What each request does, and when.

  /** Nothing but the account of an id may differ. */
  ghost predicate OthersKept(before: Users, after: Users, id: string) {
    forall k :: k != id ==> (k in before <==> k in after) && (k in before ==> after[k] == before[k])
  }

  /** A deletion succeeds exactly when somebody else deletes an existing account that is not the only
      administrator. It removes that account and no other; refused, it changes nothing. */
  lemma DeletionMeans(users: Users, actor: string, id: string)
    ensures var (after, r) := AfterDelete(users, actor, id);
      && (r == Done <==> actor != id && id in users && Admins(users) != {id})
      && (r == OwnAccount <==> actor == id)
      && (r == NotFound <==> actor != id && id !in users)
      && (r == Done ==> id !in after && OthersKept(users, after, id))
      && (r != Done ==> after == users)
  {
    if id in users { OnlyAdmin(users, id); }
  }

  /** Another account has the email address. */
  ghost predicate EmailElsewhere(users: Users, id: string, email: string) {
    exists k :: k in users && k != id && users[k].email == email
  }

  /** An update succeeds exactly when the account exists, the new role and address are valid, the address is nobody
      else's, an administrator remains and nobody disables their own account. It writes the four fields that can
      be changed and no others; refused, it changes nothing. */
  lemma UpdateMeans(p: Policy, users: Users, actor: string, id: string, req: Change)
    requires Sound(users)
    ensures var (after, r) := AfterUpdate(p, users, actor, id, req);
      && (r == Done <==>
            && ValidRole(req.role) && id in users && p.validEmail(req.email)
            && !(actor == id && req.disabled)
            && !(Admins(users) == {id} && (req.role != Admin || req.disabled))
            && !EmailElsewhere(users, id, p.normalize(req.email)))
      && (r == Done ==>
            && id in after && OthersKept(users, after, id)
            && after[id].email == p.normalize(req.email) && after[id].name == req.name
            && after[id].role == req.role && after[id].disabled == req.disabled
            && after[id].id == id && SameIdentity(after[id], users[id]))
      && (r != Done ==> after == users)
  {
    if id in users { OnlyAdmin(users, id); }
    if Admins(users) == {id} { assert id in Admins(users); }
  }

  /** The two accounts are of the same person at the same provider. */
  ghost predicate SameIdentity(a: User, b: User) {
    a.provider == b.provider && a.subject == b.subject
  }

  /** Another account is of the same person at the same provider. */
  ghost predicate SubjectElsewhere(users: Users, provider: string, subject: string) {
    subject != "" && exists k :: k in users && users[k].provider == provider && users[k].subject == subject
  }

  /** A creation succeeds exactly when the account has an address and a valid role, and its id, its address and
      its person are new. It adds the account as asked for, with the address normalised, as a local one unless
      a provider is given; refused, it changes nothing. */
  lemma CreationMeans(p: Policy, users: Users, u: User)
    ensures var (after, r) := AfterCreate(p, users, u);
      var provider := if u.provider != "" then u.provider else PROVIDER_LOCAL;
      && (r == Done <==>
            && p.normalize(u.email) != "" && ValidRole(u.role) && u.id !in users
            && !EmailElsewhere(users, u.id, p.normalize(u.email))
            && !SubjectElsewhere(users, provider, u.subject))
      && (r == Done ==>
            && u.id in after && OthersKept(users, after, u.id)
            && after[u.id].id == u.id && after[u.id].email == p.normalize(u.email) && after[u.id].name == u.name
            && after[u.id].role == u.role && after[u.id].provider == provider && after[u.id].subject == u.subject
            && after[u.id].disabled == u.disabled)
      && (r != Done ==> after == users)
  {
  }

  /** The sender is among the administrators the operator listed. */
  ghost predicate ListedAsAdmin(cfg: Ingress, who: Identity) {
    exists i :: 0 <= i < |cfg.adminUsers| && Names(cfg, cfg.trim(cfg.adminUsers[i]), who)
  }

  predicate Names(cfg: Ingress, name: string, who: Identity) {
    name != "" && (cfg.sameFold(name, who.subject) || cfg.sameFold(name, who.username))
  }

  lemma {:induction false} RoleOfListed(cfg: Ingress, who: Identity, names: seq<string>)
    ensures RoleFor(cfg, who, names) ==
      if exists i :: 0 <= i < |names| && Names(cfg, cfg.trim(names[i]), who) then Admin
      else if ValidRole(cfg.defaultRole) then cfg.defaultRole else Viewer
  {
    if names != [] {
      RoleOfListed(cfg, who, names[1..]);
      if i :| 0 <= i < |names| && Names(cfg, cfg.trim(names[i]), who) {
        assert i > 0 ==> names[1..][i - 1] == names[i];
      }
    }
  }

  /** The role a sender is to have: administrator while there is none or when listed as one, else the
      configured role, else viewer. */
  ghost predicate DueRole(p: Policy, users: Users, who: Identity, role: Role) {
    if Admins(users) == {} || ListedAsAdmin(p.ingress, who) then role == Admin
    else if ValidRole(p.ingress.defaultRole) then role == p.ingress.defaultRole
    else role == Viewer
  }

  lemma ArrivingIsDue(p: Policy, users: Users, who: Identity)
    ensures DueRole(p, users, who, ArrivingRole(p, users, who))
  {
    RoleOfListed(p.ingress, who, p.ingress.adminUsers);
  }

  /** A first request through Home Assistant creates an enabled account with the sender's names and due role,
      under the new id, as any creation would, or is refused and changes nothing. */
  lemma FirstEntryMeans(p: Policy, users: Users, who: Identity, newId: string)
    requires Sound(users) && who.subject != "" && forall id :: id in users ==> !IsSender(users[id], who)
    ensures var (after, r) := AfterEnter(p, users, who, newId);
      && (r == Done <==>
            && p.normalize(p.ingress.emailOf(who)) != "" && newId !in users
            && !EmailElsewhere(users, newId, p.normalize(p.ingress.emailOf(who))))
      && (r == Done ==>
            && newId in after && OthersKept(users, after, newId)
            && NewcomerAs(p, after[newId], who) && DueRole(p, users, who, after[newId].role))
      && (r != Done ==> after == users)
  {
    var u := NewAccount(p, users, who, newId);
    CreationMeans(p, users, u);
    ArrivingIsDue(p, users, who);
    RoleForValid(p.ingress, who, p.ingress.adminUsers);
    assert !SubjectElsewhere(users, PROVIDER_INGRESS, who.subject) by {
      if k :| k in users && users[k].provider == PROVIDER_INGRESS && users[k].subject == who.subject {
        assert IsSender(users[k], who);
      }
    }
  }

  /** The account is the sender's: it came through Home Assistant and carries the same subject. */
  ghost predicate IsSender(u: User, who: Identity) {
    u.provider == PROVIDER_INGRESS && u.subject == who.subject
  }

  ghost predicate NewcomerAs(p: Policy, u: User, who: Identity) {
    && u.email == p.normalize(p.ingress.emailOf(who)) && !u.disabled
    && u.name == (if who.displayName != "" then who.displayName
                  else if who.username != "" then who.username else "Home Assistant user")
    && u.provider == PROVIDER_INGRESS && u.subject == who.subject
  }

  /** A later one gives the sender's account the role due, unless that would take it from the only
      administrator, and changes no other account. A disabled account is refused, and so is a change of role when
      another account has the same address; refused, nothing changes. */
  lemma LaterEntryMeans(p: Policy, users: Users, who: Identity, newId: string, id: string)
    requires Sound(users) && who.subject != "" && id in users && IsSender(users[id], who)
    ensures var (after, r) := AfterEnter(p, users, who, newId);
      var stays := DueRole(p, users, who, users[id].role) || Admins(users) == {id};
      && (r == AccountDisabled <==> users[id].disabled)
      && (r == Done <==> !users[id].disabled && (stays || !EmailElsewhere(users, id, p.normalize(users[id].email))))
      && (r == Done && stays ==> after == users)
      && (r == Done && !stays ==>
            && id in after && OthersKept(users, after, id) && DueRole(p, users, who, after[id].role)
            && after[id] == users[id].(role := after[id].role, email := p.normalize(users[id].email)))
      && (r != Done ==> after == users)
  {
    HolderIs(users, who.subject, id);
    ArrivingIsDue(p, users, who);
    RoleForValid(p.ingress, who, p.ingress.adminUsers);
    OnlyAdmin(users, id);
    if Admins(users) == {id} { assert id in Admins(users); }
  }

  // Runs.

  datatype Request =
    | Create(u: User)
    | Update(actor: string, id: string, req: Change)
    | Delete(actor: string, id: string)
    | Enter(who: Identity, newId: string)

  ghost function After(p: Policy, users: Users, r: Request): (Users, Outcome) {
    match r
    case Create(u) => AfterCreate(p, users, u)
    case Update(actor, id, req) => AfterUpdate(p, users, actor, id, req)
    case Delete(actor, id) => AfterDelete(users, actor, id)
    case Enter(who, newId) => AfterEnter(p, users, who, newId)
  }

  ghost function Run(p: Policy, users: Users, rs: seq<Request>): Users {
    if rs == [] then users else After(p, Run(p, users, rs[..|rs| - 1]), rs[|rs| - 1]).0
  }

  /** Requests through Home Assistant name their sender. */
  ghost predicate Named(rs: seq<Request>) {
    forall i :: 0 <= i < |rs| && rs[i].Enter? ==> rs[i].who.subject != ""
  }

  /** Once there is an administrator there always is one, whatever requests follow. */
  lemma {:induction false} AlwaysAnAdministrator(p: Policy, users: Users, rs: seq<Request>)
    requires Sound(users) && Named(rs)
    ensures Sound(Run(p, users, rs)) && (HasAdmin(users) ==> HasAdmin(Run(p, users, rs)))
  {
    if rs != [] {
      var rest, r := rs[..|rs| - 1], rs[|rs| - 1];
      AlwaysAnAdministrator(p, users, rest);
      var now := Run(p, users, rest);
      match r
      case Create(u) => CreateKeeps(p, now, u);
      case Update(actor, id, req) => UpdateKeeps(p, now, actor, id, req);
      case Delete(actor, id) => DeleteKeeps(now, actor, id);
      case Enter(who, newId) => EnterKeeps(p, now, who, newId);
    }
  }

  /** And the first successful request through Home Assistant sees to it that there is one. */
  lemma FirstEntryMakesOne(p: Policy, users: Users, who: Identity, newId: string, rs: seq<Request>)
    requires Sound(users) && who.subject != "" && Named(rs)
    requires AfterEnter(p, users, who, newId).1 == Done
    ensures HasAdmin(Run(p, AfterEnter(p, users, who, newId).0, rs))
  {
    EnterKeeps(p, users, who, newId);
    AlwaysAnAdministrator(p, AfterEnter(p, users, who, newId).0, rs);
  }
}
