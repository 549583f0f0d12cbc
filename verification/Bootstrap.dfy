/** Bootstrapping the configured administrators at startup, and the encrypted role rows it writes. */
module Bootstrap {
  import opened Base
  import opened Envelope

  type Username = string

  datatype Role = Role(id: int, name: string)

  datatype User = User(id: int, username: Username)

  datatype RoleRow = RoleRow(wrapped: Bytes, nonce: Bytes, encrypted: Bytes)

  datatype Entry = Entry(admin: Username, userCreated: bool, roleAssigned: bool)

  /**
   `nextId` is where the sequence behind admin_users.id stands; `panicked` says that the process has died on the way.
   */
  datatype Db = Db(users: seq<User>, nextId: int, rows: map<int, RoleRow>, audit: seq<Entry>, panicked: bool)

  /** JSON of a list of role ids. */
  datatype RoleJson = RoleJson(marshal: seq<int> -> Bytes, unmarshal: Bytes -> Option<seq<int>>)

  datatype Env = Env(c: Primitives, json: RoleJson, kek: Bytes) {
    ghost predicate Standard() {
      c.Standard() && forall ids :: json.unmarshal(json.marshal(ids)) == Some(ids)
    }
  }

  /**
   What the database refuses while one administrator is dealt with, and the random bytes drawn. `usersRead` is how
   many users are read where the first read breaks off unnoticed; one that breaks off after the insert hides the new
   user, who comes last, like `refreshFault`.
   */
  datatype Turn = Turn(
    usersRead: Option<nat>,
    usersFault: bool, createFault: bool, refreshFault: bool, rolesFault: bool, assignFault: bool, auditFault: bool,
    dek: Option<Bytes>, wrapNonce: Option<Bytes>, payloadNonce: Option<Bytes>)
  {
    ghost predicate Possible() {
      IsRandom(dek, KEK_SIZE) && IsRandom(wrapNonce, NONCE_SIZE) && IsRandom(payloadNonce, NONCE_SIZE)
    }

    predicate HasEntropy() {
      dek.Some? && wrapNonce.Some? && payloadNonce.Some?
    }

    predicate Smooth() {
      usersRead.None? && !usersFault && !createFault && !refreshFault && !rolesFault && !assignFault && !auditFault
          && HasEntropy()
    }
  }

  // ----- Role rows

  function ReadRoles(e: Env, rows: map<int, RoleRow>, id: int): Option<seq<int>> {
    if id !in rows then
      None
    else
      match EnvelopeDecrypt(e.c, e.kek, rows[id].wrapped, rows[id].nonce, rows[id].encrypted)
      case Err(_) => None
      case Ok(text) => e.json.unmarshal(text)
  }

  /** A row whose key opens but whose nonce has the wrong size: Go's GCM panics. */
  predicate Panics(e: Env, rows: map<int, RoleRow>, id: int) {
    id in rows && EnvelopeDecrypt(e.c, e.kek, rows[id].wrapped, rows[id].nonce, rows[id].encrypted) == Err(BadNonceSize)
  }

  function SealRoles(e: Env, ids: seq<int>, turn: Turn): RoleRow
    requires turn.HasEntropy()
  {
    var n := turn.wrapNonce.value;
    RoleRow(n + e.c.seal(PadKek(e.kek), n, turn.dek.value), turn.payloadNonce.value,
            e.c.seal(turn.dek.value, turn.payloadNonce.value, e.json.marshal(ids)))
  }

  /** A row is read back under the KEKs that pad like the one it was written under, and under no other. */
  lemma SealedRolesAreRead(e: Env, other: Bytes, rows: map<int, RoleRow>, id: int, ids: seq<int>, turn: Turn)
    requires e.Standard() && turn.Possible() && turn.HasEntropy() && id in rows && rows[id] == SealRoles(e, ids, turn)
    ensures ReadRoles(e.(kek := other), rows, id) == if PadKek(other) == PadKek(e.kek) then Some(ids) else None
    ensures !Panics(e.(kek := other), rows, id)
  {
    var n := turn.wrapNonce.value;
    var wrapped := rows[id].wrapped;
    assert wrapped[..NONCE_SIZE] == n && wrapped[NONCE_SIZE..] == e.c.seal(PadKek(e.kek), n, turn.dek.value);
    EnvelopeRoundTrip(e.c, e.kek, other, wrapped, turn.dek.value, turn.payloadNonce.value, e.json.marshal(ids));
  }

  /**
   Any row: its key is opened with the padded KEK, the ids are what its text parses to. Go panics exactly if AES takes
   the key and GCM does not take the nonce.
   */
  lemma RolesAreRead(e: Env, rows: map<int, RoleRow>, id: int)
    ensures id !in rows ==> ReadRoles(e, rows, id) == None && !Panics(e, rows, id)
    ensures id in rows && |rows[id].wrapped| < 12 ==> ReadRoles(e, rows, id) == None && !Panics(e, rows, id)
    ensures id in rows && |rows[id].wrapped| >= 12 ==>
              var (wrapped, nonce, encrypted) := (rows[id].wrapped, rows[id].nonce, rows[id].encrypted);
              match e.c.open(PadKek(e.kek), wrapped[..12], wrapped[12..])
              case None => ReadRoles(e, rows, id) == None && !Panics(e, rows, id)
              case Some(dek) =>
                var takes := |dek| == 16 || |dek| == 24 || |dek| == 32;
                && (Panics(e, rows, id) <==> takes && |nonce| != 12)
                && ReadRoles(e, rows, id) ==
                   if takes && |nonce| == 12 && e.c.open(dek, nonce, encrypted).Some? then
                     e.json.unmarshal(e.c.open(dek, nonce, encrypted).value)
                   else None
  {
    if id in rows {
      EnvelopeDecryptGives(e.c, e.kek, rows[id].wrapped, rows[id].nonce, rows[id].encrypted);
    }
    hide EnvelopeDecrypt, PadKek;
  }

  // ----- The run

  /** The first user of that name, in id order. */
  function Lookup(users: seq<User>, name: Username): Option<int> {
    if users == [] then
      None
    else
      var n := |users| - 1;
      var before := Lookup(users[..n], name);
      if before.Some? then before else if users[n].username == name then Some(users[n].id) else None
  }

  /** The id of the first role called ADMIN; zero stands for none. */
  function AdminRoleId(roles: seq<Role>): int {
    if roles == [] then 0 else if roles[0].name == "ADMIN" then roles[0].id else AdminRoleId(roles[1..])
  }

  function Previous(e: Env, rows: map<int, RoleRow>, id: int, fault: bool): seq<int> {
    if fault then [] else match ReadRoles(e, rows, id) case None => [] case Some(ids) => ids
  }

  function Logged(audit: seq<Entry>, entry: Entry, fault: bool): seq<Entry> {
    if fault then audit else audit + [entry]
  }

  function AssignAdmin(e: Env, db: Db, role: int, name: Username, id: int, created: bool, turn: Turn): Db {
    var previous := Previous(e, db.rows, id, turn.rolesFault);
    if !turn.rolesFault && Panics(e, db.rows, id) then
      db.(panicked := true)
    else if role in previous then
      if created then db.(audit := Logged(db.audit, Entry(name, true, false), turn.auditFault)) else db
    else if !turn.HasEntropy() || turn.assignFault then
      db
    else
      db.(rows := db.rows[id := SealRoles(e, previous + [role], turn)],
          audit := Logged(db.audit, Entry(name, created, true), turn.auditFault))
  }

  /** The users that a read gets. */
  function Visible(users: seq<User>, read: Option<nat>): seq<User> {
    if read.Some? && read.value <= |users| then users[..read.value] else users
  }

  function BootstrapOne(e: Env, db: Db, role: int, name: Username, turn: Turn): Db {
    var user := Lookup(Visible(db.users, turn.usersRead), name);
    if db.panicked || turn.usersFault || (user.None? && (turn.createFault || Lookup(db.users, name).Some?)) then
      db
    else if user.Some? then
      AssignAdmin(e, db, role, name, user.value, false, turn)
    else
      var grown := db.(users := db.users + [User(db.nextId, name)], nextId := db.nextId + 1);
      if turn.refreshFault then grown else AssignAdmin(e, grown, role, name, db.nextId, true, turn)
  }

  function BootstrapEach(e: Env, db: Db, role: int, admins: seq<Username>, turns: seq<Turn>): Db
    requires |turns| == |admins|
  {
    if admins == [] then
      db
    else
      var n := |admins| - 1;
      BootstrapOne(e, BootstrapEach(e, db, role, admins[..n], turns[..n]), role, admins[n], turns[n])
  }

  function BootstrapAll(e: Env, db: Db, roles: Option<seq<Role>>, admins: seq<Username>, turns: seq<Turn>): Db
    requires |turns| == |admins|
  {
    if roles.None? || AdminRoleId(roles.value) == 0 then db
    else BootstrapEach(e, db, AdminRoleId(roles.value), admins, turns)
  }

  class Repository {
    var users: seq<User>
    var nextId: int
    var rows: map<int, RoleRow>
    var audit: seq<Entry>
    var panicked: bool

    constructor (db: Db)
      ensures View() == db
    {
      users, nextId, rows, audit, panicked := db.users, db.nextId, db.rows, db.audit, db.panicked;
    }

    function View(): Db
      reads this
    {
      Db(users, nextId, rows, audit, panicked)
    }

    /** GetUsers and the search through its result. */
    method FindUser(name: Username, read: Option<nat>) returns (id: Option<int>)
      ensures id == Lookup(Visible(users, read), name)
    {
      var users := Visible(users, read);
      id := None;
      for i := 0 to |users|
        invariant id.None? && Lookup(users[..i], name).None?
      {
        assert users[..i + 1][..i] == users[..i];
        if users[i].username == name {
          LookupStays(users, i + 1, name);
          return Some(users[i].id);
        }
      }
      assert users[..|users|] == users;
    }

    /** The name is unique, so the database refuses a second account. */
    method CreateUser(name: Username, fault: bool) returns (ok: bool)
      modifies this
      ensures ok <==> !fault && Lookup(old(users), name).None?
      ensures View() == if ok then
              old(View()).(users := old(users) + [User(old(nextId), name)], nextId := old(nextId) + 1) else old(View())
    {
      var taken := FindUser(name, None);
      if fault || taken.Some? {
        return false;
      }
      users := users + [User(nextId, name)];
      nextId := nextId + 1;
      ok := true;
    }

    method GetUserRoles(e: Env, id: int, fault: bool) returns (ids: Option<seq<int>>, panics: bool)
      ensures ids == if fault then None else ReadRoles(e, rows, id)
      ensures panics <==> !fault && Panics(e, rows, id)
    {
      if fault || id !in rows {
        return None, false;
      }
      var row := rows[id];
      var plaintext := EnvelopeDecrypt(e.c, e.kek, row.wrapped, row.nonce, row.encrypted);
      if plaintext.Err? {
        return None, plaintext.error.BadNonceSize?;
      }
      ids, panics := e.json.unmarshal(plaintext.value), false;
    }

    method AssignRoles(e: Env, id: int, ids: seq<int>, turn: Turn) returns (ok: bool)
      requires e.Standard() && turn.Possible()
      modifies this
      ensures ok <==> turn.HasEntropy() && !turn.assignFault
      ensures ok ==>
                var n := turn.wrapNonce.value;
                var row := RoleRow(n + e.c.seal(PadKek(e.kek), n, turn.dek.value), turn.payloadNonce.value,
                                   e.c.seal(turn.dek.value, turn.payloadNonce.value, e.json.marshal(ids)));
                row == SealRoles(e, ids, turn) && View() == old(View()).(rows := old(rows)[id := row])
      ensures !ok ==> View() == old(View())
    {
      var json := e.json.marshal(ids);
      var wrapped := GenerateWrappedDEK(e.c, e.kek, turn.dek, turn.wrapNonce);
      if wrapped.Err? {
        return false;
      }
      UnwrapSealed(e.c, wrapped.value, turn.dek.value, e.kek, e.kek);
      var sealed := EnvelopeEncrypt(e.c, e.kek, wrapped.value, json, turn.payloadNonce);
      if sealed.Err? || turn.assignFault {
        return false;
      }
      rows := rows[id := RoleRow(wrapped.value, sealed.value.1, sealed.value.0)];
      ok := true;
    }

    method LogAdminAction(entry: Entry, fault: bool)
      modifies this
      ensures View() == old(View()).(audit := Logged(old(audit), entry, fault))
    {
      if !fault {
        audit := audit + [entry];
      }
    }

    method BootstrapAdmins(e: Env, roles: Option<seq<Role>>, admins: seq<Username>, turns: seq<Turn>)
      requires e.Standard() && |turns| == |admins| && forall turn <- turns :: turn.Possible()
      modifies this
      ensures View() == BootstrapAll(e, old(View()), roles, admins, turns)
    {
      if roles.None? {
        return;
      }
      var adminRoleId := 0;
      for i := 0 to |roles.value|
        invariant adminRoleId == 0 && AdminRoleId(roles.value) == AdminRoleId(roles.value[i..])
      {
        if roles.value[i].name == "ADMIN" {
          adminRoleId := roles.value[i].id;
          break;
        }
      }
      if adminRoleId == 0 {
        return;
      }
      for i := 0 to |admins|
        invariant View() == BootstrapEach(e, old(View()), adminRoleId, admins[..i], turns[..i])
      {
        assert admins[..i + 1][..i] == admins[..i] && turns[..i + 1][..i] == turns[..i];
        BootstrapAdmin(e, adminRoleId, admins[i], turns[i]);
        if panicked {
          DeadRunStops(e, old(View()), adminRoleId, admins, turns, i + 1);
          return;
        }
      }
      assert admins[..|admins|] == admins && turns[..|turns|] == turns;
    }

    /** The body of the loop over the configured administrators; `return` is its `continue`. */
    method BootstrapAdmin(e: Env, adminRoleId: int, name: Username, turn: Turn)
      requires e.Standard() && turn.Possible()
      modifies this
      ensures View() == BootstrapOne(e, old(View()), adminRoleId, name, turn)
    {
      hide AssignAdmin, Env.Standard;
      if panicked || turn.usersFault {
        return;
      }
      var user := FindUser(name, turn.usersRead);
      var created := false;
      if user.None? {
        var ok := CreateUser(name, turn.createFault);
        if !ok {
          return;
        }
        created := true;
        user := None;
        if !turn.refreshFault {
          LookupNew(old(users), old(nextId), name);
          user := FindUser(name, None);
        }
        if user.None? {
          return;
        }
      }
      EnsureAdmin(e, adminRoleId, name, user.value, created, turn);
    }

    /** The rest of the loop body, for a user that is there. */
    method EnsureAdmin(e: Env, adminRoleId: int, name: Username, id: int, created: bool, turn: Turn)
      requires e.Standard() && turn.Possible()
      modifies this
      ensures View() == AssignAdmin(e, old(View()), adminRoleId, name, id, created, turn)
    {
      hide ReadRoles, SealRoles, Panics, Env.Standard;
      var found, panics := GetUserRoles(e, id, turn.rolesFault);
      if panics {
        panicked := true;
        return;
      }
      var roleIds := if found.Some? then found.value else [];
      var hasAdminRole := false;
      for i := 0 to |roleIds|
        invariant !hasAdminRole && adminRoleId !in roleIds[..i]
      {
        if roleIds[i] == adminRoleId {
          hasAdminRole := true;
          break;
        }
      }
      var roleAssigned := false;
      if !hasAdminRole {
        roleIds := roleIds + [adminRoleId];
        var ok := AssignRoles(e, id, roleIds, turn);
        if !ok {
          return;
        }
        roleAssigned := true;
      }
      if created || roleAssigned {
        LogAdminAction(Entry(name, created, roleAssigned), turn.auditFault);
      }
    }
  }

  lemma DeadStepStops(e: Env, db: Db, role: int, name: Username, turn: Turn)
    ensures db.panicked ==> BootstrapOne(e, db, role, name, turn) == db
  {
  }

  lemma {:induction false} DeadRunStops(e: Env, db: Db, role: int, admins: seq<Username>, turns: seq<Turn>, k: nat)
    requires |turns| == |admins| && k <= |admins| && BootstrapEach(e, db, role, admins[..k], turns[..k]).panicked
    ensures BootstrapEach(e, db, role, admins, turns) == BootstrapEach(e, db, role, admins[..k], turns[..k])
  {
    hide BootstrapOne;
    var n := |admins| - 1;
    if k == |admins| {
      assert admins[..k] == admins && turns[..k] == turns;
    } else {
      assert admins[..n][..k] == admins[..k] && turns[..n][..k] == turns[..k];
      DeadRunStops(e, db, role, admins[..n], turns[..n], k);
      DeadStepStops(e, BootstrapEach(e, db, role, admins[..n], turns[..n]), role, admins[n], turns[n]);
    }
  }

  lemma {:induction false} LookupStays(users: seq<User>, k: nat, name: Username)
    requires k <= |users| && Lookup(users[..k], name).Some?
    ensures Lookup(users, name) == Lookup(users[..k], name)
  {
    if k == |users| {
      assert users[..k] == users;
    } else {
      assert users[..|users| - 1][..k] == users[..k];
      LookupStays(users[..|users| - 1], k, name);
    }
  }

  lemma LookupNew(users: seq<User>, id: int, name: Username)
    ensures forall other :: Lookup(users + [User(id, name)], other) ==
                            if Lookup(users, other).None? && other == name then Some(id) else Lookup(users, other)
  {
    assert (users + [User(id, name)])[..|users|] == users;
  }

  /** The first role called ADMIN counts. */
  lemma {:induction false} AdminRoleIdIs(roles: seq<Role>, k: nat)
    requires k < |roles| && roles[k].name == "ADMIN" && forall j :: 0 <= j < k ==> roles[j].name != "ADMIN"
    ensures AdminRoleId(roles) == roles[k].id
  {
    if k > 0 {
      assert roles[0].name != "ADMIN";
      AdminRoleIdIs(roles[1..], k - 1);
    }
  }

  /** Without a role called ADMIN the run ends before the first administrator. */
  lemma {:induction false} NoAdminRole(roles: seq<Role>)
    requires forall r <- roles :: r.name != "ADMIN"
    ensures AdminRoleId(roles) == 0
  {
    if roles != [] {
      assert roles[0] in roles && forall r <- roles[1..] :: r in roles;
      NoAdminRole(roles[1..]);
    }
  }

  // ----- What a run without faults amounts to

  /** Ids come from the sequence, and only users have role rows. */
  ghost predicate Wellformed(db: Db) {
    && (forall u <- db.users :: u.id < db.nextId)
    && (forall i, j :: 0 <= i < j < |db.users| ==> db.users[i].id != db.users[j].id)
    && (forall id <- db.rows :: id < db.nextId)
  }

  /** A user with that name whose roles can be read and include ADMIN. */
  predicate Settled(e: Env, db: Db, role: int, name: Username) {
    var user := Lookup(db.users, name);
    user.Some? && var ids := ReadRoles(e, db.rows, user.value); ids.Some? && role in ids.value
  }

  /** There is a user with that name, and reading the roles panics. */
  predicate RowPanics(e: Env, db: Db, name: Username) {
    var user := Lookup(db.users, name);
    user.Some? && Panics(e, db.rows, user.value)
  }

  /** The names that satisfy `p`, each once, in the order of their first occurrence. */
  function Firsts(names: seq<Username>, p: Username -> bool): seq<Username> {
    if names == [] then
      []
    else
      var n := |names| - 1;
      var before := Firsts(names[..n], p);
      if p(names[n]) && names[n] !in before then before + [names[n]] else before
  }

  function Accounts(names: seq<Username>, from: int): seq<User> {
    seq(|names|, i requires 0 <= i < |names| => User(from + i, names[i]))
  }

  function Entries(db: Db, names: seq<Username>): seq<Entry> {
    seq(|names|, i requires 0 <= i < |names| => Entry(names[i], Lookup(db.users, names[i]).None?, true))
  }

  function NoAccount(db: Db): Username -> bool {
    name => Lookup(db.users, name).None?
  }

  function NotSettled(e: Env, db: Db, role: int): Username -> bool {
    name => !Settled(e, db, role, name)
  }

  /** ADMIN on top of the roles that could be read before. */
  function WithAdmin(ids: Option<seq<int>>, role: int): seq<int> {
    match ids
    case None => [role]
    case Some(known) => if role in known then known else known + [role]
  }

  predicate SameRow(a: map<int, RoleRow>, b: map<int, RoleRow>, id: int) {
    (id in a <==> id in b) && (id in a ==> a[id] == b[id])
  }

  /**
   Missing accounts are created, ADMIN is added where it was not readable, each change is logged once, all else is as
   before.
   */
  ghost predicate IsBootstrapped(e: Env, db: Db, role: int, admins: seq<Username>, after: Db) {
    && after.users == db.users + Accounts(Firsts(admins, NoAccount(db)), db.nextId)
    && after.nextId == db.nextId + |Firsts(admins, NoAccount(db))|
    && !after.panicked
    && after.audit == db.audit + Entries(db, Firsts(admins, NotSettled(e, db, role)))
    && RolesAdded(e, db, role, admins, after)
    && OtherRowsKept(e, db, role, admins, after)
  }

  ghost predicate RolesAdded(e: Env, db: Db, role: int, admins: seq<Username>, after: Db) {
    forall name <- admins ::
      var user := Lookup(after.users, name);
      user.Some? && ReadRoles(e, after.rows, user.value) == Some(WithAdmin(ReadRoles(e, db.rows, user.value), role))
  }

  ghost predicate OtherRowsKept(e: Env, db: Db, role: int, admins: seq<Username>, after: Db) {
    forall id ::
      (forall name <- admins :: Lookup(after.users, name) == Some(id) ==> Settled(e, db, role, name)) ==>
          SameRow(db.rows, after.rows, id)
  }

  // ----- One administrator

  /** The first user of that name, or nothing if no user has it. */
  lemma {:induction false} LookupFinds(users: seq<User>, name: Username)
    ensures var id := Lookup(users, name);
            match id
            case Some(i) =>
              exists k :: 0 <= k < |users| && users[k] == User(i, name)
                          && forall j :: 0 <= j < k ==> users[j].username != name
            case None => forall u <- users :: u.username != name
  {
    if users != [] {
      var n := |users| - 1;
      LookupFinds(users[..n], name);
      assert users == users[..n] + [users[n]];
      if Lookup(users[..n], name).Some? {
        var k :| 0 <= k < n && users[..n][k] == User(Lookup(users, name).value, name)
                 && forall j :: 0 <= j < k ==> users[..n][j].username != name;
        assert users[k] == User(Lookup(users, name).value, name);
        assert forall j | 0 <= j < k :: users[j] == users[..n][j];
      } else {
        assert forall j | 0 <= j < n :: users[j] == users[..n][j] && users[..n][j] in users[..n];
      }
    }
  }

  /** Different names are different users. */
  lemma LookupInjective(db: Db, a: Username, b: Username)
    requires Wellformed(db) && Lookup(db.users, a).Some? && Lookup(db.users, a) == Lookup(db.users, b)
    ensures a == b
  {
    LookupFinds(db.users, a);
    LookupFinds(db.users, b);
  }

  lemma LookupBelow(db: Db, name: Username)
    requires Wellformed(db) && Lookup(db.users, name).Some?
    ensures Lookup(db.users, name).value < db.nextId
  {
    LookupFinds(db.users, name);
  }

  lemma StepKeepsWellformed(e: Env, db: Db, role: int, name: Username, turn: Turn)
    requires Wellformed(db)
    ensures Wellformed(BootstrapOne(e, db, role, name, turn))
  {
    hide ReadRoles, SealRoles, Lookup, Visible;
    VisibleLookup(db.users, turn.usersRead, name);
    if Lookup(db.users, name).Some? {
      LookupBelow(db, name);
    }
  }

  /** A read that breaks off can hide a user, and shows no other. */
  lemma VisibleLookup(users: seq<User>, read: Option<nat>, name: Username)
    ensures Lookup(Visible(users, read), name).Some? ==> Lookup(users, name) == Lookup(Visible(users, read), name)
    ensures read.None? ==> Visible(users, read) == users
  {
    if read.Some? && read.value <= |users| && Lookup(users[..read.value], name).Some? {
      LookupStays(users, read.value, name);
    }
  }

  lemma HiddenTurn(e: Env, db: Db, role: int, name: Username, turn: Turn)
    requires Lookup(db.users, name).Some? && Lookup(Visible(db.users, turn.usersRead), name).None?
    ensures BootstrapOne(e, db, role, name, turn) == db
  {
  }

  function IdOf(db: Db, name: Username): int {
    match Lookup(db.users, name) case Some(id) => id case None => db.nextId
  }

  lemma StepSettled(e: Env, db: Db, role: int, name: Username, turn: Turn)
    requires Settled(e, db, role, name) && !turn.rolesFault
    ensures BootstrapOne(e, db, role, name, turn) == db
  {
    ReadableDoesNotPanic(e, db.rows, Lookup(db.users, name).value);
    VisibleLookup(db.users, turn.usersRead, name);
    hide Lookup, Visible, ReadRoles, SealRoles, Panics;
  }

  lemma ReadableDoesNotPanic(e: Env, rows: map<int, RoleRow>, id: int)
    ensures ReadRoles(e, rows, id).Some? ==> !Panics(e, rows, id)
  {
  }

  lemma StepUnsettled(e: Env, db: Db, role: int, name: Username, turn: Turn)
    requires e.Standard() && Wellformed(db) && turn.Possible() && turn.Smooth() && !Settled(e, db, role, name)
    requires !db.panicked && !RowPanics(e, db, name)
    ensures var (after, id, missing) := (BootstrapOne(e, db, role, name, turn), IdOf(db, name),
            Lookup(db.users, name).None?);
            && after.users == db.users + (if missing then [User(db.nextId, name)] else [])
            && after.nextId == db.nextId + (if missing then 1 else 0)
            && !after.panicked
            && after.audit == db.audit + [Entry(name, missing, true)]
            && ReadRoles(e, after.rows, id) == Some(WithAdmin(ReadRoles(e, db.rows, id), role))
            && (forall other | other != id :: SameRow(db.rows, after.rows, other))
  {
    hide ReadRoles, SealRoles, WithAdmin, SameRow, AssignAdmin, Panics, Env.Standard, Turn.Possible, Turn.HasEntropy,
        Wellformed;
    if Lookup(db.users, name).None? {
      FreshIdHasNoRoles(e, db);
      var grown := db.(users := db.users + [User(db.nextId, name)], nextId := db.nextId + 1);
      AssignUnsettled(e, grown, role, name, db.nextId, true, turn);
    } else {
      AssignUnsettled(e, db, role, name, IdOf(db, name), false, turn);
    }
  }

  lemma FreshIdHasNoRoles(e: Env, db: Db)
    requires Wellformed(db)
    ensures ReadRoles(e, db.rows, db.nextId) == None && !Panics(e, db.rows, db.nextId)
  {
    NoRow(e, db.rows, db.nextId);
  }

  lemma NoRow(e: Env, rows: map<int, RoleRow>, id: int)
    requires id !in rows
    ensures ReadRoles(e, rows, id) == None && !Panics(e, rows, id)
  {
  }

  lemma AssignUnsettled(e: Env, db: Db, role: int, name: Username, id: int, created: bool, turn: Turn)
    requires e.Standard() && turn.Possible() && turn.Smooth()
    requires var ids := ReadRoles(e, db.rows, id); ids.None? || role !in ids.value
    requires !Panics(e, db.rows, id)
    ensures var after := AssignAdmin(e, db, role, name, id, created, turn);
            && after.panicked == db.panicked
            && after.users == db.users && after.nextId == db.nextId
            && after.audit == db.audit + [Entry(name, created, true)]
            && ReadRoles(e, after.rows, id) == Some(WithAdmin(ReadRoles(e, db.rows, id), role))
            && (forall other | other != id :: SameRow(db.rows, after.rows, other))
  {
    hide ReadRoles, SealRoles, Panics, Env.Standard, Turn.Possible;
    var after := AssignAdmin(e, db, role, name, id, created, turn);
    var previous := Previous(e, db.rows, id, false);
    assert after.rows == db.rows[id := SealRoles(e, previous + [role], turn)];
    SealedRolesAreRead(e, e.kek, after.rows, id, previous + [role], turn);
    assert e.(kek := e.kek) == e && [] + [role] == [role];
  }

  // ----- The whole list

  lemma {:induction false} FirstsMembers(names: seq<Username>, p: Username -> bool, name: Username)
    ensures name in Firsts(names, p) <==> name in names && p(name)
  {
    if names != [] {
      var n := |names| - 1;
      FirstsMembers(names[..n], p, name);
      FirstsMembers(names[..n], p, names[n]);
      assert names == names[..n] + [names[n]];
    }
  }

  lemma FirstsOneMore(names: seq<Username>, name: Username, p: Username -> bool)
    ensures Firsts(names + [name], p) ==
            if p(name) && name !in names then Firsts(names, p) + [name] else Firsts(names, p)
  {
    FirstsMembers(names, p, name);
    assert (names + [name])[..|names|] == names;
  }

  /** The accounts of new names are found, after all older ones. */
  lemma {:induction false} AccountsAreFound(users: seq<User>, names: seq<Username>, from: int, name: Username)
    ensures var found := Lookup(users + Accounts(names, from), name);
            && (Lookup(users, name).Some? ==> found == Lookup(users, name))
            && (Lookup(users, name).None? ==> (found.Some? <==> name in names))
  {
    hide Lookup;
    if names == [] {
      assert users + Accounts(names, from) == users;
    } else {
      var n := |names| - 1;
      AccountsAreFound(users, names[..n], from, name);
      AccountsOneMore(names[..n], from, names[n]);
      hide Accounts;
      assert names == names[..n] + [names[n]];
      assert users + Accounts(names, from) == users + Accounts(names[..n], from) + [User(from + n, names[n])];
      LookupNew(users + Accounts(names[..n], from), from + n, names[n]);
    }
  }

  lemma AccountsOneMore(names: seq<Username>, from: int, name: Username)
    ensures Accounts(names + [name], from) == Accounts(names, from) + [User(from + |names|, name)]
  {
  }

  lemma LookupSoFar(e: Env, db: Db, role: int, admins: seq<Username>, mid: Db, name: Username)
    requires IsBootstrapped(e, db, role, admins, mid)
    ensures Lookup(db.users, name).Some? ==> Lookup(mid.users, name) == Lookup(db.users, name)
    ensures Lookup(db.users, name).None? ==> (Lookup(mid.users, name).Some? <==> name in admins)
  {
    hide Lookup, RolesAdded, OtherRowsKept, Settled;
    AccountsAreFound(db.users, Firsts(admins, NoAccount(db)), db.nextId, name);
    FirstsMembers(admins, NoAccount(db), name);
  }

  /** A name that comes up again is settled. */
  lemma AgainIsSettled(e: Env, db: Db, role: int, admins: seq<Username>, mid: Db, name: Username)
    requires RolesAdded(e, db, role, admins, mid) && name in admins
    ensures Settled(e, mid, role, name)
  {
    hide Lookup, ReadRoles;
  }

  /** Roles depend on the row alone. */
  lemma SameRoles(e: Env, a: map<int, RoleRow>, b: map<int, RoleRow>, id: int)
    requires SameRow(a, b, id)
    ensures ReadRoles(e, a, id) == ReadRoles(e, b, id) && Panics(e, a, id) == Panics(e, b, id)
  {
  }

  /** A name that comes up for the first time finds the roles it had before the run. */
  lemma FirstFindsOldRoles(e: Env, db: Db, role: int, admins: seq<Username>, mid: Db, name: Username)
    requires Wellformed(db) && Wellformed(mid) && IsBootstrapped(e, db, role, admins, mid) && name !in admins
    ensures Lookup(mid.users, name) == Lookup(db.users, name)
    ensures ReadRoles(e, mid.rows, IdOf(mid, name)) == ReadRoles(e, db.rows, IdOf(mid, name))
    ensures Settled(e, mid, role, name) == Settled(e, db, role, name)
    ensures RowPanics(e, mid, name) == RowPanics(e, db, name)
  {
    hide ReadRoles, Lookup, Panics;
    LookupSoFar(e, db, role, admins, mid, name);
    var id := IdOf(mid, name);
    if Lookup(mid.users, name).Some? {
      forall other <- admins
        ensures Lookup(mid.users, other) != Some(id)
      {
        if Lookup(mid.users, other) == Some(id) {
          LookupInjective(mid, other, name);
        }
      }
      SameRoles(e, db.rows, mid.rows, id);
    } else {
      assert id !in db.rows;
      NoRow(e, db.rows, id);
      NoRow(e, mid.rows, id);
    }
  }

  lemma NothingBootstrapped(e: Env, db: Db, role: int)
    requires !db.panicked
    ensures IsBootstrapped(e, db, role, [], db)
  {
  }

  lemma OneMoreSettled(e: Env, db: Db, role: int, admins: seq<Username>, name: Username, mid: Db)
    requires Wellformed(db) && Wellformed(mid) && IsBootstrapped(e, db, role, admins, mid)
             && Settled(e, mid, role, name)
    ensures IsBootstrapped(e, db, role, admins + [name], mid)
  {
    FirstsOneMore(admins, name, NoAccount(db));
    FirstsOneMore(admins, name, NotSettled(e, db, role));
    hide ReadRoles, Lookup, Firsts, Wellformed;
    if name !in admins {
      FirstFindsOldRoles(e, db, role, admins, mid, name);
    }
    assert forall x :: x in admins + [name] <==> x in admins || x == name;
    assert RolesAdded(e, db, role, admins + [name], mid);
    assert OtherRowsKept(e, db, role, admins + [name], mid);
  }

  lemma OneMoreUnsettled(e: Env, db: Db, role: int, admins: seq<Username>, name: Username, mid: Db, turn: Turn)
    requires e.Standard() && turn.Possible() && turn.Smooth()
    requires Wellformed(db) && Wellformed(mid) && IsBootstrapped(e, db, role, admins, mid)
             && !Settled(e, mid, role, name)
    requires !RowPanics(e, db, name)
    ensures IsBootstrapped(e, db, role, admins + [name], BootstrapOne(e, mid, role, name, turn))
  {
    var after := BootstrapOne(e, mid, role, name, turn);
    hide BootstrapOne, Env.Standard, Turn.Possible, Turn.Smooth, ReadRoles, WithAdmin, Settled, Lookup, Wellformed;
    hide RolesAdded, OtherRowsKept, StepsTo, RowPanics;
    if name in admins {
      AgainIsSettled(e, db, role, admins, mid, name);
    }
    FirstFindsOldRoles(e, db, role, admins, mid, name);
    StepUnsettled(e, mid, role, name, turn);
    StepIs(mid, after, name);
    NewAccountsAndEntries(e, db, role, admins, name, mid, after);
    NewRolesAdded(e, db, role, admins, name, mid, after);
    NewRowsKept(e, db, role, admins, name, mid, after);
  }

  lemma NewAccountsAndEntries(e: Env, db: Db, role: int, admins: seq<Username>, name: Username, mid: Db, after: Db)
    requires IsBootstrapped(e, db, role, admins, mid) && name !in admins && !Settled(e, db, role, name)
    requires var missing := Lookup(db.users, name).None?;
             && after.users == mid.users + (if missing then [User(mid.nextId, name)] else [])
             && after.nextId == mid.nextId + (if missing then 1 else 0)
             && after.audit == mid.audit + [Entry(name, missing, true)]
    ensures after.users == db.users + Accounts(Firsts(admins + [name], NoAccount(db)), db.nextId)
    ensures after.nextId == db.nextId + |Firsts(admins + [name], NoAccount(db))|
    ensures after.audit == db.audit + Entries(db, Firsts(admins + [name], NotSettled(e, db, role)))
  {
    hide RolesAdded, OtherRowsKept;
    FirstsOneMore(admins, name, NoAccount(db));
    FirstsOneMore(admins, name, NotSettled(e, db, role));
    hide Firsts, Lookup, Settled;
    var accounts, entries := Firsts(admins, NoAccount(db)), Firsts(admins, NotSettled(e, db, role));
    AccountsOneMore(accounts, db.nextId, name);
    EntriesOneMore(db, entries, name);
    hide Accounts, Entries;
    assert db.users + Accounts(accounts, db.nextId) + [User(mid.nextId, name)] ==
        db.users + (Accounts(accounts, db.nextId) + [User(mid.nextId, name)]);
    assert mid.users + [] == mid.users;
    assert db.audit + Entries(db, entries) + [Entry(name, Lookup(db.users, name).None?, true)] ==
           db.audit + (Entries(db, entries) + [Entry(name, Lookup(db.users, name).None?, true)]);
  }

  lemma EntriesOneMore(db: Db, names: seq<Username>, name: Username)
    ensures Entries(db, names + [name]) == Entries(db, names) + [Entry(name, Lookup(db.users, name).None?, true)]
  {
    hide Lookup;
  }

  lemma StepIs(mid: Db, after: Db, name: Username)
    requires Wellformed(mid)
             && after.users == mid.users + (if Lookup(mid.users, name).None? then [User(mid.nextId, name)] else [])
    requires forall other | other != IdOf(mid, name) :: SameRow(mid.rows, after.rows, other)
    ensures StepsTo(mid, after, name, IdOf(mid, name))
  {
    hide Lookup, Wellformed, SameRow, IdOf;
    forall other
      ensures if other == name then
                Lookup(after.users, other) == Some(IdOf(mid, name))
              else
                && Lookup(after.users, other) == Lookup(mid.users, other)
                && Lookup(after.users, other) != Some(IdOf(mid, name))
    {
      LookupAfterStep(mid, after, name, other);
    }
  }

  lemma LookupAfterStep(mid: Db, after: Db, name: Username, other: Username)
    requires Wellformed(mid)
             && after.users == mid.users + (if Lookup(mid.users, name).None? then [User(mid.nextId, name)] else [])
    ensures other == name ==> Lookup(after.users, other) == Some(IdOf(mid, name))
    ensures other != name ==>
            Lookup(after.users, other) == Lookup(mid.users, other)
              && Lookup(after.users, other) != Some(IdOf(mid, name))
  {
    hide Wellformed, Lookup;
    LookupNew(mid.users, mid.nextId, name);
    assert mid.users + [] == mid.users;
    if other != name && Lookup(mid.users, other).Some? {
      LookupBelow(mid, other);
      if Lookup(mid.users, other) == Lookup(mid.users, name) {
        LookupInjective(mid, other, name);
      }
    }
  }

  /** The step gives `name` the user `id`, leaves the other users as they are, and touches only the row `id`. */
  ghost predicate StepsTo(mid: Db, after: Db, name: Username, id: int) {
    && (forall other ::
          if other == name then
            Lookup(after.users, other) == Some(id)
          else
            && Lookup(after.users, other) == Lookup(mid.users, other)
            && Lookup(after.users, other) != Some(id))
    && (forall other | other != id :: SameRow(mid.rows, after.rows, other))
  }

  lemma NewRolesAdded(e: Env, db: Db, role: int, admins: seq<Username>, name: Username, mid: Db, after: Db)
    requires RolesAdded(e, db, role, admins, mid) && StepsTo(mid, after, name, IdOf(mid, name))
    requires ReadRoles(e, after.rows, IdOf(mid, name)) == Some(WithAdmin(ReadRoles(e, db.rows, IdOf(mid, name)), role))
    ensures RolesAdded(e, db, role, admins + [name], after)
  {
    hide Lookup, ReadRoles, WithAdmin, SameRow, IdOf;
    forall other <- admins + [name]
      ensures Lookup(after.users, other).Some?
      ensures var id := Lookup(after.users, other).value;
              ReadRoles(e, after.rows, id) == Some(WithAdmin(ReadRoles(e, db.rows, id), role))
    {
      if other != name {
        assert other in admins;
        SameRoles(e, mid.rows, after.rows, Lookup(after.users, other).value);
      }
    }
  }

  lemma NewRowsKept(e: Env, db: Db, role: int, admins: seq<Username>, name: Username, mid: Db, after: Db)
    requires OtherRowsKept(e, db, role, admins, mid) && StepsTo(mid, after, name, IdOf(mid, name)) && name !in admins
    requires !Settled(e, db, role, name)
    ensures OtherRowsKept(e, db, role, admins + [name], after)
  {
    hide Lookup, Settled, IdOf;
    forall id | forall other <- admins + [name] :: Lookup(after.users, other) == Some(id) ==>
        Settled(e, db, role, other)
      ensures SameRow(db.rows, after.rows, id)
    {
      assert name in admins + [name];
      assert id != IdOf(mid, name);
      forall other <- admins | Lookup(mid.users, other) == Some(id)
        ensures Settled(e, db, role, other)
      {
        assert other in admins + [name];
      }
      assert SameRow(db.rows, mid.rows, id);
      assert SameRow(mid.rows, after.rows, id);
    }
  }

  /**
   Without faults a run leaves every configured administrator with ADMIN on top of the roles that could be read
   before.
   */
  lemma {:induction false} EachMeaning(e: Env, db: Db, role: int, admins: seq<Username>, turns: seq<Turn>)
    requires e.Standard() && |turns| == |admins| && Wellformed(db) && !db.panicked
    requires forall turn <- turns :: turn.Possible() && turn.Smooth()
    requires forall name <- admins :: !RowPanics(e, db, name)
    ensures var after := BootstrapEach(e, db, role, admins, turns);
            Wellformed(after) && IsBootstrapped(e, db, role, admins, after)
  {
    hide Env.Standard, Turn.Possible, Turn.Smooth, Wellformed, BootstrapOne, IsBootstrapped, Settled, RowPanics;
    if admins == [] {
      NothingBootstrapped(e, db, role);
    } else {
      var n := |admins| - 1;
      assert forall turn <- turns[..n] :: turn in turns;
      assert turns[n] in turns && admins[n] in admins;
      assert forall name <- admins[..n] :: name in admins;
      EachMeaning(e, db, role, admins[..n], turns[..n]);
      var mid := BootstrapEach(e, db, role, admins[..n], turns[..n]);
      assert admins[..n] + [admins[n]] == admins;
      StepKeepsWellformed(e, mid, role, admins[n], turns[n]);
      if Settled(e, mid, role, admins[n]) {
        StepOfSettled(e, mid, role, admins[n], turns[n]);
        OneMoreSettled(e, db, role, admins[..n], admins[n], mid);
      } else {
        OneMoreUnsettled(e, db, role, admins[..n], admins[n], mid, turns[n]);
      }
    }
  }

  lemma StepOfSettled(e: Env, db: Db, role: int, name: Username, turn: Turn)
    requires Settled(e, db, role, name) && turn.Smooth()
    ensures BootstrapOne(e, db, role, name, turn) == db
  {
    StepSettled(e, db, role, name, turn);
  }

  lemma UpToPanic(e: Env, db: Db, role: int, admins: seq<Username>, turns: seq<Turn>, k: nat)
    requires e.Standard() && |turns| == |admins| && Wellformed(db) && !db.panicked
    requires forall turn <- turns :: turn.Possible() && turn.Smooth()
    requires k < |admins| && RowPanics(e, db, admins[k]) && forall j :: 0 <= j < k ==> !RowPanics(e, db, admins[j])
    ensures var mid := BootstrapEach(e, db, role, admins[..k], turns[..k]);
            IsBootstrapped(e, db, role, admins[..k], mid) && RowPanics(e, mid, admins[k])
  {
    hide RowPanics, Turn.Possible, Turn.Smooth, Env.Standard, Wellformed, IsBootstrapped, BootstrapEach;
    assert forall turn <- turns[..k] :: turn in turns;
    forall name <- admins[..k]
      ensures !RowPanics(e, db, name)
    {
      var j :| 0 <= j < k && name == admins[..k][j];
      assert admins[j] == name;
    }
    EachMeaning(e, db, role, admins[..k], turns[..k]);
    FirstFindsOldRoles(e, db, role, admins[..k], BootstrapEach(e, db, role, admins[..k], turns[..k]), admins[k]);
  }

  /**
   The first configured administrator whose row makes Go panic ends the run and the process: those before are done,
   nothing of that one and the rest.
   */
  lemma EachPanicsAtFirst(e: Env, db: Db, role: int, admins: seq<Username>, turns: seq<Turn>, k: nat)
    requires e.Standard() && |turns| == |admins| && Wellformed(db) && !db.panicked
    requires forall turn <- turns :: turn.Possible() && turn.Smooth()
    requires k < |admins| && RowPanics(e, db, admins[k]) && forall j :: 0 <= j < k ==> !RowPanics(e, db, admins[j])
    ensures var mid := BootstrapEach(e, db, role, admins[..k], turns[..k]);
            && IsBootstrapped(e, db, role, admins[..k], mid)
            && BootstrapEach(e, db, role, admins, turns) == mid.(panicked := true)
  {
    hide RowPanics, Turn.Possible, Turn.Smooth, Env.Standard, Wellformed, IsBootstrapped, BootstrapOne;
    UpToPanic(e, db, role, admins, turns, k);
    assert turns[k] in turns;
    PanicStep(e, BootstrapEach(e, db, role, admins[..k], turns[..k]), role, admins[k], turns[k]);
    assert admins[..k + 1][..k] == admins[..k] && turns[..k + 1][..k] == turns[..k];
    DeadRunStops(e, db, role, admins, turns, k + 1);
  }

  lemma PanicStep(e: Env, db: Db, role: int, name: Username, turn: Turn)
    requires turn.Smooth() && RowPanics(e, db, name)
    ensures BootstrapOne(e, db, role, name, turn) == db.(panicked := true)
  {
    hide Panics, ReadRoles, SealRoles, Lookup;
  }

  /** A run over settled administrators changes nothing and logs nothing, whatever else the database refuses. */
  lemma {:induction false} EachSettled(e: Env, db: Db, role: int, admins: seq<Username>, turns: seq<Turn>)
    requires |turns| == |admins| && forall name <- admins :: Settled(e, db, role, name)
    requires forall turn <- turns :: !turn.rolesFault
    ensures BootstrapEach(e, db, role, admins, turns) == db
  {
    hide Settled, BootstrapOne;
    if admins != [] {
      var n := |admins| - 1;
      assert forall turn <- turns[..n] :: turn in turns;
      assert forall name <- admins[..n] :: name in admins;
      assert turns[n] in turns && admins[n] in admins;
      EachSettled(e, db, role, admins[..n], turns[..n]);
      StepSettled(e, db, role, admins[n], turns[n]);
    }
  }

  /** A run without faults is quiet exactly if every configured administrator is settled. */
  lemma EachQuietIffSettled(e: Env, db: Db, role: int, admins: seq<Username>, turns: seq<Turn>)
    requires e.Standard() && |turns| == |admins| && Wellformed(db) && !db.panicked
    requires forall name <- admins :: !RowPanics(e, db, name)
    requires forall turn <- turns :: turn.Possible() && turn.Smooth()
    ensures BootstrapEach(e, db, role, admins, turns).audit == db.audit <==>
            forall name <- admins :: Settled(e, db, role, name)
    ensures BootstrapEach(e, db, role, admins, turns) == db <==> forall name <- admins :: Settled(e, db, role, name)
  {
    EachMeaning(e, db, role, admins, turns);
    hide Env.Standard, Turn.Possible, Wellformed, Settled, RowPanics, BootstrapEach, RolesAdded, OtherRowsKept;
    if name :| name in admins && !Settled(e, db, role, name) {
      FirstsMembers(admins, NotSettled(e, db, role), name);
      assert |Entries(db, Firsts(admins, NotSettled(e, db, role)))| > 0;
    } else {
      EachSettled(e, db, role, admins, turns);
    }
  }

  // ----- The whole start

  /** `role` is the id of the first role called ADMIN. */
  ghost predicate IsAdminRole(roles: Option<seq<Role>>, role: int) {
    roles.Some? && exists k :: 0 <= k < |roles.value| && roles.value[k] == Role(role, "ADMIN")
                               && forall j :: 0 <= j < k ==> roles.value[j].name != "ADMIN"
  }

  lemma StartsWithRole(roles: Option<seq<Role>>, role: int)
    requires IsAdminRole(roles, role)
    ensures AdminRoleId(roles.value) == role
  {
    var k :| 0 <= k < |roles.value| && roles.value[k] == Role(role, "ADMIN")
             && forall j :: 0 <= j < k ==> roles.value[j].name != "ADMIN";
    AdminRoleIdIs(roles.value, k);
  }

  /** If the roles cannot be read, none is called ADMIN, or the first of that name has the id 0, nothing happens. */
  lemma NothingWithoutAdminRole(e: Env, db: Db, roles: Option<seq<Role>>, admins: seq<Username>, turns: seq<Turn>)
    requires |turns| == |admins|
    requires roles.None? || (forall r <- roles.value :: r.name != "ADMIN") || IsAdminRole(roles, 0)
    ensures BootstrapAll(e, db, roles, admins, turns) == db
  {
    if roles.Some? {
      if IsAdminRole(roles, 0) {
        StartsWithRole(roles, 0);
      } else {
        NoAdminRole(roles.value);
      }
    }
  }

  /**
   Otherwise a start without faults leaves every configured administrator with ADMIN on top of the roles that could
   be read before.
   */
  lemma BootstrapMeaning(e: Env, db: Db, roles: Option<seq<Role>>, role: int, admins: seq<Username>, turns: seq<Turn>)
    requires e.Standard() && |turns| == |admins| && Wellformed(db) && !db.panicked
    requires IsAdminRole(roles, role) && role != 0
    requires forall turn <- turns :: turn.Possible() && turn.Smooth()
    requires forall name <- admins :: !RowPanics(e, db, name)
    ensures IsBootstrapped(e, db, role, admins, BootstrapAll(e, db, roles, admins, turns))
  {
    StartsWithRole(roles, role);
    EachMeaning(e, db, role, admins, turns);
    hide AdminRoleId, BootstrapEach, IsBootstrapped, Wellformed, Env.Standard, RowPanics, IsAdminRole;
  }

  /** A start goes through the administrators one by one: any part of the list first, then the rest. */
  lemma {:induction false} StartsOneByOne(e: Env, db: Db, roles: Option<seq<Role>>, admins: seq<Username>,
      turns: seq<Turn>, k: nat)
    requires |turns| == |admins| && k <= |admins|
    ensures BootstrapAll(e, db, roles, [], []) == db
    ensures BootstrapAll(e, db, roles, admins, turns) ==
            BootstrapAll(e, BootstrapAll(e, db, roles, admins[..k], turns[..k]), roles, admins[k..], turns[k..])
  {
    hide BootstrapOne, AdminRoleId;
    if k == |admins| {
      assert admins[..k] == admins && turns[..k] == turns;
    } else {
      var n := |admins| - 1;
      StartsOneByOne(e, db, roles, admins[..n], turns[..n], k);
      assert admins[..n][..k] == admins[..k] && turns[..n][..k] == turns[..k];
      assert admins[..n][k..] == admins[k..][..n - k] && turns[..n][k..] == turns[k..][..n - k];
    }
  }

  /** The account of a new administrator. */
  function Grown(db: Db, name: Username): Db {
    db.(users := db.users + [User(db.nextId, name)], nextId := db.nextId + 1)
  }

  /** A turn in which the users cannot be read, or the account cannot be made or fetched, ends there. */
  lemma RefusedAccount(e: Env, db: Db, roles: Option<seq<Role>>, role: int, name: Username, turn: Turn)
    requires !db.panicked && IsAdminRole(roles, role) && role != 0
    ensures var (after, known) := (BootstrapAll(e, db, roles, [name], [turn]), Lookup(db.users, name).Some?);
            && (turn.usersFault || (!known && turn.createFault) ==> after == db)
            && (!turn.usersFault && !known && !turn.createFault && turn.refreshFault ==>
                after == db.(users := db.users + [User(db.nextId, name)], nextId := db.nextId + 1))
  {
    StartsWithRole(roles, role);
    OneTurn(e, db, roles, name, turn);
    VisibleLookup(db.users, turn.usersRead, name);
    hide AdminRoleId, BootstrapAll, Lookup, Visible, AssignAdmin;
  }

  /**
   A turn in which the role cannot be stored writes no row and no audit entry; it leaves the account if it has made
   one.
   */
  lemma RefusedRole(e: Env, db: Db, roles: Option<seq<Role>>, role: int, name: Username, turn: Turn)
    requires Wellformed(db) && !db.panicked && IsAdminRole(roles, role) && role != 0
    requires turn.assignFault || !turn.HasEntropy()
    ensures var (after, known) := (BootstrapAll(e, db, roles, [name], [turn]), Lookup(db.users, name).Some?);
            && after.rows == db.rows && after.audit == db.audit
            && after.users == db.users + (if after.users == db.users then [] else [User(db.nextId, name)])
            && after.nextId == db.nextId + (if after.users == db.users then 0 else 1)
            && (after.users == db.users <==> known || turn.usersFault || turn.createFault)
            && (after.panicked ==> RowPanics(e, db, name) && !turn.rolesFault)
  {
    StartsWithRole(roles, role);
    OneTurn(e, db, roles, name, turn);
    VisibleLookup(db.users, turn.usersRead, name);
    FreshIdHasNoRoles(e, db);
    hide AdminRoleId, BootstrapAll, Lookup, Visible, ReadRoles, Panics, SealRoles, Wellformed, Turn.HasEntropy;
    hide AssignAdmin, IsAdminRole, Previous;
    if Lookup(db.users, name).Some? {
      RefusedAssign(e, db, role, name, Lookup(db.users, name).value, false, turn);
    } else {
      RefusedAssign(e, Grown(db, name), role, name, db.nextId, true, turn);
    }
  }

  lemma RefusedAssign(e: Env, db: Db, role: int, name: Username, id: int, created: bool, turn: Turn)
    requires turn.assignFault || !turn.HasEntropy()
    requires created ==> ReadRoles(e, db.rows, id).None? && !Panics(e, db.rows, id)
    ensures AssignAdmin(e, db, role, name, id, created, turn) ==
            if !turn.rolesFault && Panics(e, db.rows, id) then db.(panicked := true) else db
  {
    hide ReadRoles, Panics, SealRoles, Turn.HasEntropy;
  }

  /** A refused audit entry costs nothing else, and a new account has no roles that could fail to be read. */
  lemma RefusedAudit(e: Env, db: Db, roles: Option<seq<Role>>, role: int, name: Username, turn: Turn)
    requires Wellformed(db) && !db.panicked && IsAdminRole(roles, role) && role != 0
    ensures turn.auditFault ==>
              BootstrapAll(e, db, roles, [name], [turn]) ==
              BootstrapAll(e, db, roles, [name], [turn.(auditFault := false)]).(audit := db.audit)
    ensures Lookup(db.users, name).None? ==>
              BootstrapAll(e, db, roles, [name], [turn]) ==
              BootstrapAll(e, db, roles, [name], [turn.(rolesFault := !turn.rolesFault)])
  {
    StartsWithRole(roles, role);
    var (quiet, other) := (turn.(auditFault := false), turn.(rolesFault := !turn.rolesFault));
    OneTurn(e, db, roles, name, turn);
    OneTurn(e, db, roles, name, quiet);
    OneTurn(e, db, roles, name, other);
    VisibleLookup(db.users, turn.usersRead, name);
    FreshIdHasNoRoles(e, db);
    hide AdminRoleId, BootstrapAll, Lookup, Visible, ReadRoles, Panics, Wellformed;
    var user := Lookup(Visible(db.users, turn.usersRead), name);
    if user.Some? {
      AuditAssign(e, db, role, name, user.value, false, turn);
    }
    AuditAssign(e, Grown(db, name), role, name, db.nextId, true, turn);
    hide AssignAdmin;
  }

  lemma AuditAssign(e: Env, db: Db, role: int, name: Username, id: int, created: bool, turn: Turn)
    ensures turn.auditFault ==>
              AssignAdmin(e, db, role, name, id, created, turn) ==
              AssignAdmin(e, db, role, name, id, created, turn.(auditFault := false)).(audit := db.audit)
    ensures ReadRoles(e, db.rows, id).None? && !Panics(e, db.rows, id) ==>
              AssignAdmin(e, db, role, name, id, created, turn) ==
              AssignAdmin(e, db, role, name, id, created, turn.(rolesFault := !turn.rolesFault))
  {
    hide ReadRoles, Panics;
    var other := turn.(rolesFault := !turn.rolesFault);
    assert turn.HasEntropy() ==> forall ids :: SealRoles(e, ids, turn) == SealRoles(e, ids, other);
    hide SealRoles;
  }

  lemma OneTurn(e: Env, db: Db, roles: Option<seq<Role>>, name: Username, turn: Turn)
    ensures roles.Some? && AdminRoleId(roles.value) != 0 ==>
              BootstrapAll(e, db, roles, [name], [turn]) == BootstrapOne(e, db, AdminRoleId(roles.value), name, turn)
  {
    hide AdminRoleId, BootstrapOne;
    if roles.Some? {
      assert BootstrapEach(e, db, AdminRoleId(roles.value), [name][..0], [turn][..0]) == db;
    }
  }

  /** A user whom a read that breaks off hides is left alone, like one whose turn cannot read the users at all. */
  lemma HiddenUserIsLeftAlone(e: Env, db: Db, roles: Option<seq<Role>>, name: Username, turn: Turn, n: nat)
    requires turn.usersRead == Some(n) && n <= |db.users|
    requires (exists u <- db.users :: u.username == name) && forall u <- db.users[..n] :: u.username != name
    ensures BootstrapAll(e, db, roles, [name], [turn]) == db
  {
    OneTurn(e, db, roles, name, turn);
    LookupFinds(db.users, name);
    LookupFinds(db.users[..n], name);
    hide Lookup, BootstrapOne;
    assert Visible(db.users, turn.usersRead) == db.users[..n];
    HiddenTurn(e, db, AdminRoleId(if roles.Some? then roles.value else []), name, turn);
  }

  /**
   The first configured administrator whose row makes Go panic ends the run and the process: those before are done,
   nothing of that one and the rest.
   */
  lemma PanicsAtFirst(e: Env, db: Db, roles: Option<seq<Role>>, role: int, admins: seq<Username>, turns: seq<Turn>,
      k: nat)
    requires e.Standard() && |turns| == |admins| && Wellformed(db) && !db.panicked
    requires IsAdminRole(roles, role) && role != 0
    requires forall turn <- turns :: turn.Possible() && turn.Smooth()
    requires k < |admins| && RowPanics(e, db, admins[k]) && forall j :: 0 <= j < k ==> !RowPanics(e, db, admins[j])
    ensures var mid := BootstrapAll(e, db, roles, admins[..k], turns[..k]);
            && IsBootstrapped(e, db, role, admins[..k], mid)
            && BootstrapAll(e, db, roles, admins, turns) == mid.(panicked := true)
  {
    StartsWithRole(roles, role);
    EachPanicsAtFirst(e, db, role, admins, turns, k);
    hide AdminRoleId, BootstrapEach, IsBootstrapped, Wellformed, Env.Standard, RowPanics, IsAdminRole;
  }

  // ----- Running it again

  /** A start over settled administrators changes nothing and logs nothing, whatever else the database refuses. */
  lemma SettledRunChangesNothing(e: Env, db: Db, roles: Option<seq<Role>>, role: int, admins: seq<Username>,
      turns: seq<Turn>)
    requires |turns| == |admins| && IsAdminRole(roles, role)
    requires forall name <- admins :: Settled(e, db, role, name)
    requires forall turn <- turns :: !turn.rolesFault
    ensures BootstrapAll(e, db, roles, admins, turns) == db
  {
    StartsWithRole(roles, role);
    EachSettled(e, db, role, admins, turns);
    hide AdminRoleId, BootstrapEach, Settled;
  }

  /** A start without faults is quiet exactly if every configured administrator is settled. */
  lemma QuietIffSettled(e: Env, db: Db, roles: Option<seq<Role>>, role: int, admins: seq<Username>, turns: seq<Turn>)
    requires e.Standard() && |turns| == |admins| && Wellformed(db) && !db.panicked
    requires IsAdminRole(roles, role) && role != 0
    requires forall name <- admins :: !RowPanics(e, db, name)
    requires forall turn <- turns :: turn.Possible() && turn.Smooth()
    ensures BootstrapAll(e, db, roles, admins, turns).audit == db.audit <==>
            forall name <- admins :: Settled(e, db, role, name)
    ensures BootstrapAll(e, db, roles, admins, turns) == db <==> forall name <- admins :: Settled(e, db, role, name)
  {
    StartsWithRole(roles, role);
    EachQuietIffSettled(e, db, role, admins, turns);
    hide AdminRoleId, BootstrapEach, Settled, Wellformed, Env.Standard, RowPanics, IsAdminRole;
  }

  /** The start after one without faults changes nothing and writes no audit entry, for any list with repetitions. */
  lemma SecondRunChangesNothing(e: Env, db: Db, roles: seq<Role>, admins: seq<Username>, turns: seq<Turn>,
      later: seq<Turn>)
    requires e.Standard() && |turns| == |later| == |admins| && Wellformed(db) && !db.panicked
    requires forall name <- admins :: !RowPanics(e, db, name)
    requires forall turn <- turns :: turn.Possible() && turn.Smooth()
    requires forall turn <- later :: !turn.rolesFault
    ensures var after := BootstrapAll(e, db, Some(roles), admins, turns);
            BootstrapAll(e, after, Some(roles), admins, later) == after
  {
    hide Env.Standard, Turn.Possible, Turn.Smooth, Wellformed, Settled, BootstrapEach, RowPanics;
    var role := AdminRoleId(roles);
    if role != 0 {
      EachMeaning(e, db, role, admins, turns);
      var after := BootstrapEach(e, db, role, admins, turns);
      forall name <- admins
        ensures Settled(e, after, role, name)
      {
        AgainIsSettled(e, db, role, admins, after, name);
      }
      EachSettled(e, after, role, admins, later);
    }
  }

  // ----- Where it loses roles

  /**
   What cannot be read is not kept: if the role row of a configured user cannot be fetched or decrypted, the user
   is left with ADMIN alone, and the audit log says that the role was assigned.
   */
  lemma UnreadableRolesAreReplaced(e: Env, db: Db, roles: Option<seq<Role>>, role: int, name: Username, turn: Turn)
    requires e.Standard() && turn.Possible() && turn.(rolesFault := false).Smooth() && Lookup(db.users, name).Some?
    requires turn.rolesFault || ReadRoles(e, db.rows, Lookup(db.users, name).value).None?
    requires turn.rolesFault || !RowPanics(e, db, name)
    requires !db.panicked && IsAdminRole(roles, role) && role != 0
    ensures var after := BootstrapAll(e, db, roles, [name], [turn]);
            && ReadRoles(e, after.rows, Lookup(db.users, name).value) == Some([role])
            && after == db.(rows := after.rows, audit := db.audit + [Entry(name, false, true)])
            && forall other | Lookup(db.users, name) != Some(other) :: SameRow(db.rows, after.rows, other)
  {
    StartsWithRole(roles, role);
    OneTurn(e, db, roles, name, turn);
    hide ReadRoles, SealRoles, Panics, Env.Standard, Turn.Possible, BootstrapAll, AdminRoleId;
    var id, after := Lookup(db.users, name).value, BootstrapAll(e, db, roles, [name], [turn]);
    assert [] + [role] == [role] && e.(kek := e.kek) == e;
    SealedRolesAreRead(e, e.kek, after.rows, id, [role], turn);
  }

  /**
   So a start under a rotated master key, which leaves the role rows under the old one, costs every configured
   administrator the other roles.
   */
  lemma RotatedKeyLosesRoles(e: Env, newKek: Bytes, db: Db, roles: Option<seq<Role>>, role: int, name: Username,
      ids: seq<int>, written: Turn, turn: Turn)
    requires e.Standard() && written.Possible() && written.HasEntropy() && turn.Possible() && turn.Smooth()
    requires PadKek(newKek) != PadKek(e.kek) && !db.panicked && IsAdminRole(roles, role) && role != 0
    requires Lookup(db.users, name).Some? && Lookup(db.users, name).value in db.rows
    requires db.rows[Lookup(db.users, name).value] == SealRoles(e, ids, written)
    ensures ReadRoles(e, db.rows, Lookup(db.users, name).value) == Some(ids)
    ensures ReadRoles(e.(kek := newKek), BootstrapAll(e.(kek := newKek), db, roles, [name], [turn]).rows,
            Lookup(db.users, name).value) == Some([role])
  {
    hide ReadRoles, SealRoles, Panics, BootstrapAll, PadKek;
    var id := Lookup(db.users, name).value;
    SealedRolesAreRead(e, newKek, db.rows, id, ids, written);
    SealedRolesAreRead(e, e.kek, db.rows, id, ids, written);
    assert e.(kek := e.kek) == e;
    UnreadableRolesAreReplaced(e.(kek := newKek), db, roles, role, name, turn);
  }
}
