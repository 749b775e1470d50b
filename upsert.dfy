/** The field-by-field assembly inside upsertUser: from the identity record the
    sign-in flow supplies, build the `values` to insert and the `updateSet`
    to apply when a user with the same openId already exists
    (server/db.ts:32-69). Both records are keyed by column name and hold only
    the columns that were set, as the source's plain objects do. */
module Upsert {
  import opened Results
  import opened Schema
  import opened Query

  /** A field of an insert record as the caller wrote it: left out
      (`undefined`), explicitly `null`, or given. */
  datatype Nullable<T> = Undefined | Null | Given(value: T)

  /** The identity record handed to upsertUser. */
  datatype InsertUser = InsertUser(
    openId: string,
    name: Nullable<string>,
    email: Nullable<string>,
    loginMethod: Nullable<string>,
    role: Option<Role>,
    lastSignedIn: Option<Timestamp>)

  datatype Column = OpenIdColumn | NameColumn | EmailColumn | LoginMethodColumn | RoleColumn | LastSignedInColumn

  datatype Value = Text(text: string) | NullValue | RoleValue(role: Role) | Time(time: Timestamp)

  /** A record of column assignments; a column that is absent was not set. */
  type ColumnSet = map<Column, Value>

  /** The nullable text columns, visited in this order. */
  const TextColumns: seq<Column> := [NameColumn, EmailColumn, LoginMethodColumn]

  function TextField(user: InsertUser, c: Column): Nullable<string> {
    match c
    case NameColumn => user.name
    case EmailColumn => user.email
    case LoginMethodColumn => user.loginMethod
    case _ => Undefined
  }

  /** `value ?? null` for a value known not to be `undefined`. */
  function Normalize(v: Nullable<string>): Value {
    if v.Given? then Text(v.value) else NullValue
  }

  /** True when the caller supplies no column the update set could carry:
      every text field left out, no role, no sign-in time, and not the owner. */
  predicate SuppliesNothing(user: InsertUser, ownerOpenId: string) {
    && user.name.Undefined? && user.email.Undefined? && user.loginMethod.Undefined?
    && user.role.None? && user.openId != ownerOpenId && user.lastSignedIn.None?
  }

  /** What a record assigns to column `c`, if anything. */
  function Get(columns: ColumnSet, c: Column): Option<Value> {
    if c in columns then Some(columns[c]) else None
  }

  /** What the assembly writes for a nullable text field: nothing when it is
      left out, otherwise its value with `null` kept as null. */
  function TextAssignment(field: Nullable<string>): Option<Value> {
    if field.Undefined? then None else Some(Normalize(field))
  }

  /** The role the assembly writes: the caller's explicit role or, failing
      that, admin for the owner's openId. */
  function RoleAssignment(user: InsertUser, ownerOpenId: string): Option<Value> {
    if user.role.Some? then Some(RoleValue(user.role.value))
    else if user.openId == ownerOpenId then Some(RoleValue(AdminRole))
    else None
  }

  /** The sign-in time the update set carries: the supplied one or, when the
      update set would otherwise be empty, the current time. */
  function SignInAssignment(user: InsertUser, ownerOpenId: string, now: Timestamp): Option<Value> {
    if user.lastSignedIn.Some? then Some(Time(user.lastSignedIn.value))
    else if SuppliesNothing(user, ownerOpenId) then Some(Time(now))
    else None
  }

  /** The loop over the nullable text fields that starts the assembly: the
      insert begins with the openId, and each field that was not left out is
      written, `null` as null, to both records. */
  method AssembleTextColumns(user: InsertUser) returns (values: ColumnSet, updateSet: ColumnSet)
    ensures values == updateSet[OpenIdColumn := Text(user.openId)]
    ensures Get(updateSet, OpenIdColumn) == Get(updateSet, RoleColumn) == Get(updateSet, LastSignedInColumn) == None
    ensures Get(updateSet, NameColumn) == TextAssignment(user.name)
    ensures Get(updateSet, EmailColumn) == TextAssignment(user.email)
    ensures Get(updateSet, LoginMethodColumn) == TextAssignment(user.loginMethod)
  {
    values := map[OpenIdColumn := Text(user.openId)];
    updateSet := map[];

    var i := 0;
    while i < |TextColumns|
      invariant 0 <= i <= |TextColumns|
      invariant values == updateSet[OpenIdColumn := Text(user.openId)]
      invariant forall c :: c in updateSet <==> c in TextColumns[..i] && !TextField(user, c).Undefined?
      invariant forall c :: c in updateSet ==> updateSet[c] == Normalize(TextField(user, c))
    {
      var field := TextColumns[i];
      var value := TextField(user, field);
      if !value.Undefined? {
        var normalized := Normalize(value);
        values := values[field := normalized];
        updateSet := updateSet[field := normalized];
      }
      i := i + 1;
    }
    assert TextColumns[..i] == TextColumns;
  }

  /** A record that assigns none of the six columns is empty. */
  lemma NoColumnsIsEmpty(columns: ColumnSet)
    requires Get(columns, OpenIdColumn) == Get(columns, NameColumn) == Get(columns, EmailColumn) == None
    requires Get(columns, LoginMethodColumn) == Get(columns, RoleColumn) == Get(columns, LastSignedInColumn) == None
    ensures |columns| == 0
  {
    forall c ensures c !in columns {
      match c {
        case OpenIdColumn =>
        case NameColumn =>
        case EmailColumn =>
        case LoginMethodColumn =>
        case RoleColumn =>
        case LastSignedInColumn =>
      }
    }
    assert columns == map[];
  }

  /** The assembly in full (server/db.ts:32-69): both records, column by
      column. The insert always carries the openId and a sign-in time; the
      update set never carries the openId, and carries a sign-in time when
      one was supplied or when it would otherwise be empty. */
  method AssembleUpsert(user: InsertUser, ownerOpenId: string, now: Timestamp)
    returns (values: ColumnSet, updateSet: ColumnSet)
    ensures Get(values, OpenIdColumn) == Some(Text(user.openId)) && Get(updateSet, OpenIdColumn) == None
    ensures Get(values, NameColumn) == Get(updateSet, NameColumn) == TextAssignment(user.name)
    ensures Get(values, EmailColumn) == Get(updateSet, EmailColumn) == TextAssignment(user.email)
    ensures Get(values, LoginMethodColumn) == Get(updateSet, LoginMethodColumn) == TextAssignment(user.loginMethod)
    ensures Get(values, RoleColumn) == Get(updateSet, RoleColumn) == RoleAssignment(user, ownerOpenId)
    ensures Get(values, LastSignedInColumn) == Some(Time(user.lastSignedIn.GetOr(now)))
    ensures Get(updateSet, LastSignedInColumn) == SignInAssignment(user, ownerOpenId, now)
    ensures |updateSet| > 0
  {
    values, updateSet := AssembleTextColumns(user);
    if user.lastSignedIn.Some? {
      values := values[LastSignedInColumn := Time(user.lastSignedIn.value)];
      updateSet := updateSet[LastSignedInColumn := Time(user.lastSignedIn.value)];
    }
    if user.role.Some? {
      values := values[RoleColumn := RoleValue(user.role.value)];
      updateSet := updateSet[RoleColumn := RoleValue(user.role.value)];
    } else if user.openId == ownerOpenId {
      values := values[RoleColumn := RoleValue(AdminRole)];
      updateSet := updateSet[RoleColumn := RoleValue(AdminRole)];
    }

    if LastSignedInColumn !in values {
      values := values[LastSignedInColumn := Time(now)];
    }

    if SuppliesNothing(user, ownerOpenId) {
      NoColumnsIsEmpty(updateSet);
    } else {
      assert Get(updateSet, NameColumn).Some? || Get(updateSet, EmailColumn).Some?
        || Get(updateSet, LoginMethodColumn).Some? || Get(updateSet, RoleColumn).Some?
        || Get(updateSet, LastSignedInColumn).Some?;
    }
    if |updateSet| == 0 {
      updateSet := updateSet[LastSignedInColumn := Time(now)];
    }
  }

  // ---------------------------------------------------------------- rows

  /** What a nullable text column holds once the assignment is written. */
  function StoredText(v: Value): Option<string> {
    if v.Text? then Some(v.text) else None
  }

  function TextAfter(columns: ColumnSet, c: Column, current: Option<string>): Option<string> {
    if c in columns then StoredText(columns[c]) else current
  }

  function RoleAfter(columns: ColumnSet, current: Role): Role {
    if RoleColumn in columns && columns[RoleColumn].RoleValue? then columns[RoleColumn].role else current
  }

  function SignInAfter(columns: ColumnSet, current: Timestamp): Timestamp {
    if LastSignedInColumn in columns && columns[LastSignedInColumn].Time? then columns[LastSignedInColumn].time else current
  }

  /** The users row `insert(values)` creates: columns not in `values` take
      their defaults (null text, role user, signed in now). */
  function InsertedUser(values: ColumnSet, id: int, now: Timestamp): User {
    var openId := if OpenIdColumn in values && values[OpenIdColumn].Text? then values[OpenIdColumn].text else "";
    User(id, openId,
         TextAfter(values, NameColumn, None),
         TextAfter(values, EmailColumn, None),
         TextAfter(values, LoginMethodColumn, None),
         RoleAfter(values, DefaultRole),
         SignInAfter(values, now),
         now)
  }

  /** The row `onDuplicateKeyUpdate({ set: updateSet })` leaves behind. */
  function UpdatedUser(u: User, updateSet: ColumnSet): User {
    u.(name := TextAfter(updateSet, NameColumn, u.name),
       email := TextAfter(updateSet, EmailColumn, u.email),
       loginMethod := TextAfter(updateSet, LoginMethodColumn, u.loginMethod),
       role := RoleAfter(updateSet, u.role),
       lastSignedIn := SignInAfter(updateSet, u.lastSignedIn))
  }

  // ---------------------------------------------------------------- outcome in the caller's terms

  /** A nullable text column after an upsert: left out keeps what was there,
      null clears it, a given text replaces it. */
  function Merged(field: Nullable<string>, prior: Option<string>): Option<string> {
    match field
    case Undefined => prior
    case Null => None
    case Given(s) => Some(s)
  }

  /** The role an upsert writes, if any. */
  function PromotedRole(user: InsertUser, ownerOpenId: string): Option<Role> {
    if user.role.Some? then user.role
    else if user.openId == ownerOpenId then Some(AdminRole)
    else None
  }

  /** The sign-in time an upsert of an existing user writes, if any. */
  function RefreshedSignIn(user: InsertUser, ownerOpenId: string, now: Timestamp): Option<Timestamp> {
    if user.lastSignedIn.Some? then user.lastSignedIn
    else if SuppliesNothing(user, ownerOpenId) then Some(now)
    else None
  }

  /** The row a first sign-in creates. */
  function NewUserRow(user: InsertUser, ownerOpenId: string, id: int, now: Timestamp): (u: User)
    ensures u.id == id && u.openId == user.openId && u.createdAt == now
    ensures u.role == AdminRole <==> user.role == Some(AdminRole) || (user.role.None? && user.openId == ownerOpenId)
    ensures u.lastSignedIn == user.lastSignedIn.GetOr(now)
  {
    User(id, user.openId,
         Merged(user.name, None), Merged(user.email, None), Merged(user.loginMethod, None),
         PromotedRole(user, ownerOpenId).GetOr(DefaultRole),
         user.lastSignedIn.GetOr(now),
         now)
  }

  /** The row a later sign-in leaves behind. */
  function ReturningUserRow(u: User, user: InsertUser, ownerOpenId: string, now: Timestamp): (r: User)
    ensures r.id == u.id && r.openId == u.openId && r.createdAt == u.createdAt
    ensures user.role.None? && user.openId != ownerOpenId ==> r.role == u.role
    ensures user.lastSignedIn.None? && !SuppliesNothing(user, ownerOpenId) ==> r.lastSignedIn == u.lastSignedIn
  {
    u.(name := Merged(user.name, u.name),
       email := Merged(user.email, u.email),
       loginMethod := Merged(user.loginMethod, u.loginMethod),
       role := PromotedRole(user, ownerOpenId).GetOr(u.role),
       lastSignedIn := RefreshedSignIn(user, ownerOpenId, now).GetOr(u.lastSignedIn))
  }

  /** Writing the assembled `values` creates exactly the row described by the
      caller's record.

      This lemma and the next one connect two encodings of the same rules:
      the column maps the assembly builds, read back through the table's
      column defaults (InsertedUser, UpdatedUser), and the row-level
      description (NewUserRow, ReturningUserRow). The role and sign-in case
      splits appear in both, so what the pair establishes is that the maps
      carry those decisions into the row unchanged: `undefined` keeps a
      column, `null` clears it, and a column missing from `values` takes its
      default. */
  lemma InsertMatchesRecord(user: InsertUser, ownerOpenId: string, now: Timestamp, id: int, values: ColumnSet)
    requires Get(values, OpenIdColumn) == Some(Text(user.openId))
    requires Get(values, NameColumn) == TextAssignment(user.name)
    requires Get(values, EmailColumn) == TextAssignment(user.email)
    requires Get(values, LoginMethodColumn) == TextAssignment(user.loginMethod)
    requires Get(values, RoleColumn) == RoleAssignment(user, ownerOpenId)
    requires Get(values, LastSignedInColumn) == Some(Time(user.lastSignedIn.GetOr(now)))
    ensures InsertedUser(values, id, now) == NewUserRow(user, ownerOpenId, id, now)
  {
  }

  /** Applying the assembled `updateSet` to an existing row gives exactly the
      row described by the caller's record. */
  lemma UpdateMatchesRecord(u: User, user: InsertUser, ownerOpenId: string, now: Timestamp, updateSet: ColumnSet)
    requires Get(updateSet, NameColumn) == TextAssignment(user.name)
    requires Get(updateSet, EmailColumn) == TextAssignment(user.email)
    requires Get(updateSet, LoginMethodColumn) == TextAssignment(user.loginMethod)
    requires Get(updateSet, RoleColumn) == RoleAssignment(user, ownerOpenId)
    requires Get(updateSet, LastSignedInColumn) == SignInAssignment(user, ownerOpenId, now)
    ensures UpdatedUser(u, updateSet) == ReturningUserRow(u, user, ownerOpenId, now)
  {
  }

  /** The statement upsertUser executes against the users table: insert the
      assembled row under `id`, or, when a row already holds this openId
      (the unique key), apply the update set to it instead. */
  method ExecuteUpsert(users: seq<User>, user: InsertUser, ownerOpenId: string, id: int, now: Timestamp)
    returns (after: seq<User>)
    ensures (forall u :: u in users ==> u.openId != user.openId) ==>
      after == users + [NewUserRow(user, ownerOpenId, id, now)]
    ensures !(forall u :: u in users ==> u.openId != user.openId) ==>
      && |after| == |users|
      && forall i :: 0 <= i < |users| ==>
           after[i] == if users[i].openId == user.openId then ReturningUserRow(users[i], user, ownerOpenId, now) else users[i]
  {
    var values, updateSet := AssembleUpsert(user, ownerOpenId, now);
    if forall u :: u in users ==> u.openId != user.openId {
      InsertMatchesRecord(user, ownerOpenId, now, id, values);
      after := users + [InsertedUser(values, id, now)];
    } else {
      after := UpdateWhere(users, (u: User) => u.openId == user.openId, (u: User) => UpdatedUser(u, updateSet));
      forall i | 0 <= i < |users| && users[i].openId == user.openId
        ensures after[i] == ReturningUserRow(users[i], user, ownerOpenId, now)
      {
        UpdateMatchesRecord(users[i], user, ownerOpenId, now, updateSet);
      }
    }
  }
}
