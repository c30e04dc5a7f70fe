/**
 * The `userRoles` collection as an in-memory sequence of records, in query order: the
 * first record for a user decides its role, `setUserRole` upserts, and the admin seeding
 * adds a record only for a user that has none.
 */
module UserRoleService {
  const AdminRole := "admin"
  const UserRole := "user"

  /** One `userRoles` document; the two timestamps are `Date.now()` readings. */
  datatype RoleRecord = RoleRecord(userId: string, role: string, createdAt: nat, updatedAt: nat)

  /** The position of the first record for `userId`, or |rs| when there is none. */
  function FirstRecord(rs: seq<RoleRecord>, userId: string): (k: nat)
    ensures k <= |rs|
    ensures k < |rs| ==> rs[k].userId == userId
    ensures forall j :: 0 <= j < k ==> rs[j].userId != userId
  {
    if rs == [] then 0
    else if rs[0].userId == userId then 0
    else 1 + FirstRecord(rs[1..], userId)
  }

  predicate HasUser(rs: seq<RoleRecord>, userId: string) {
    FirstRecord(rs, userId) < |rs|
  }

  /** The role a successful lookup returns: the first record's, or 'user'. */
  function RoleOf(rs: seq<RoleRecord>, userId: string): (role: string)
    ensures HasUser(rs, userId) ==> role == rs[FirstRecord(rs, userId)].role
    ensures (forall k :: 0 <= k < |rs| ==> rs[k].userId != userId) ==> role == UserRole
  {
    var k := FirstRecord(rs, userId);
    if k < |rs| then rs[k].role else UserRole
  }

  /** The collection after a successful `setUserRole`. */
  function WithRole(rs: seq<RoleRecord>, userId: string, role: string, now: nat): seq<RoleRecord> {
    var k := FirstRecord(rs, userId);
    if k < |rs| then rs[k := rs[k].(role := role)]
    else rs + [RoleRecord(userId, role, now, now)]
  }

  /** The collection after a successful `initializeAdminUser`. */
  function Seeded(rs: seq<RoleRecord>, userId: string, now: nat): seq<RoleRecord> {
    if HasUser(rs, userId) then rs else rs + [RoleRecord(userId, AdminRole, now, now)]
  }

  /** The first-match position is the only one with the first-match property. */
  lemma FirstRecordUnique(rs: seq<RoleRecord>, userId: string, k: nat)
    requires k <= |rs|
    requires k < |rs| ==> rs[k].userId == userId
    requires forall j :: 0 <= j < k ==> rs[j].userId != userId
    ensures FirstRecord(rs, userId) == k
  {
    var k0 := FirstRecord(rs, userId);
    assert k0 == k;
  }

  lemma FirstRecordAppend(rs: seq<RoleRecord>, r: RoleRecord, userId: string)
    ensures FirstRecord(rs + [r], userId) == if HasUser(rs, userId) then FirstRecord(rs, userId)
                                             else if r.userId == userId then |rs| else |rs| + 1
  {
    var k0 := FirstRecord(rs, userId);
    var rs' := rs + [r];
    var k := if k0 < |rs| then k0 else if r.userId == userId then |rs| else |rs| + 1;
    assert forall j :: 0 <= j < |rs| ==> rs'[j] == rs[j];
    FirstRecordUnique(rs', userId, k);
  }

  lemma FirstRecordUpdate(rs: seq<RoleRecord>, i: nat, role: string, userId: string)
    requires i < |rs|
    ensures FirstRecord(rs[i := rs[i].(role := role)], userId) == FirstRecord(rs, userId)
  {
    var rs' := rs[i := rs[i].(role := role)];
    assert forall j :: 0 <= j < |rs| ==> rs'[j].userId == rs[j].userId;
    FirstRecordUnique(rs', userId, FirstRecord(rs, userId));
  }

  /** `setUserRole` on a known user changes only the role of its first record and adds
      nothing; on an unknown user it appends exactly one record. Afterwards the lookup
      gives the new role, and every other user's role is as before. */
  lemma WithRoleSpec(rs: seq<RoleRecord>, userId: string, role: string, now: nat, other: string)
    ensures var k := FirstRecord(rs, userId);
            k < |rs| ==>
              && |WithRole(rs, userId, role, now)| == |rs|
              && WithRole(rs, userId, role, now)[k] == rs[k].(role := role)
              && forall j :: 0 <= j < |rs| && j != k ==> WithRole(rs, userId, role, now)[j] == rs[j]
    ensures !HasUser(rs, userId) ==> WithRole(rs, userId, role, now) == rs + [RoleRecord(userId, role, now, now)]
    ensures RoleOf(WithRole(rs, userId, role, now), userId) == role
    ensures other != userId ==> RoleOf(WithRole(rs, userId, role, now), other) == RoleOf(rs, other)
  {
    var k := FirstRecord(rs, userId);
    if k < |rs| {
      FirstRecordUpdate(rs, k, role, userId);
      FirstRecordUpdate(rs, k, role, other);
    } else {
      FirstRecordAppend(rs, RoleRecord(userId, role, now, now), userId);
      FirstRecordAppend(rs, RoleRecord(userId, role, now, now), other);
    }
  }

  /** Seeding never alters an existing record: it keeps the collection as a prefix, adds
      one admin record only for a user with none, and a second seeding changes nothing. */
  lemma SeededSpec(rs: seq<RoleRecord>, userId: string, now: nat, later: nat)
    ensures rs <= Seeded(rs, userId, now)
    ensures HasUser(rs, userId) ==> Seeded(rs, userId, now) == rs
    ensures !HasUser(rs, userId) ==> |Seeded(rs, userId, now)| == |rs| + 1
    ensures RoleOf(Seeded(rs, userId, now), userId) == if HasUser(rs, userId) then RoleOf(rs, userId) else AdminRole
    ensures Seeded(Seeded(rs, userId, now), userId, later) == Seeded(rs, userId, now)
  {
    if !HasUser(rs, userId) {
      FirstRecordAppend(rs, RoleRecord(userId, AdminRole, now, now), userId);
    }
  }

  /** The collection; `readOk`/`writeOk` say whether the query and the write succeed. */
  class RoleStore {
    var records: seq<RoleRecord>

    constructor(records: seq<RoleRecord>)
      ensures this.records == records
    {
      this.records := records;
    }

    /** A failing query is swallowed and reads as 'user'. */
    method GetUserRole(userId: string, readOk: bool) returns (role: string)
      ensures role == if readOk then RoleOf(records, userId) else UserRole
    {
      if !readOk {
        return UserRole;
      }
      var k := FirstRecord(records, userId);
      if k < |records| {
        role := records[k].role;
      } else {
        role := UserRole;
      }
    }

    method IsUserAdmin(userId: string, readOk: bool) returns (admin: bool)
      ensures admin <==> readOk && RoleOf(records, userId) == AdminRole
    {
      var role := GetUserRole(userId, readOk);
      admin := role == AdminRole;
    }

    /** Rethrows a failed query or write, leaving the records as they were. */
    method SetUserRole(userId: string, role: string, now: nat, readOk: bool, writeOk: bool) returns (threw: bool)
      modifies this
      ensures threw <==> !(readOk && writeOk)
      ensures records == if threw then old(records) else WithRole(old(records), userId, role, now)
    {
      if !readOk || !writeOk {
        return true;
      }
      threw := false;
      var k := FirstRecord(records, userId);
      if k < |records| {
        records := records[k := records[k].(role := role)];
      } else {
        records := records + [RoleRecord(userId, role, now, now)];
      }
    }

    /** Never throws: a failed query or write is swallowed. */
    method InitializeAdminUser(userId: string, now: nat, readOk: bool, writeOk: bool)
      modifies this
      ensures records == if readOk && writeOk then Seeded(old(records), userId, now) else old(records)
    {
      if readOk && writeOk && !HasUser(records, userId) {
        records := records + [RoleRecord(userId, AdminRole, now, now)];
      }
    }
  }
}
