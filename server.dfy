/** The backend's request handlers over its three collections: users, sessions and laundry
    entries. Each collection is a sequence in the database's natural (insertion) order;
    `find_one` and `update_one` act on the first document that matches. Generated ids, the
    current time, password hashing and token signing are parameters. */
module Server {
  import opened Common
  import opened LaundryData

  const WORKER: string := "worker"
  const STUDENT: string := "student"
  const STUDENT_DOMAIN: string := "@iiitdwd.ac.in"
  /** `to_list(1000)`: the most documents a listing returns. */
  const QUERY_LIMIT: nat := 1000
  /** Seven days, in the seconds that timestamps count. */
  const SESSION_LIFETIME: int := 7 * 24 * 60 * 60

  datatype HttpError = HttpError(status: int, detail: string)

  /** What the web framework answers when a handler raises an exception it does not expect. */
  const INTERNAL_SERVER_ERROR: HttpError := HttpError(500, "Internal Server Error")

  datatype UserDoc = UserDoc(
    userId: string,
    email: string,
    name: string,
    role: string,
    studentId: Option<string>,
    picture: Option<string>,
    passwordHash: Option<string>,
    createdAt: Option<Timestamp>)

  datatype SessionDoc = SessionDoc(userId: string, sessionToken: string, expiresAt: Timestamp, createdAt: Timestamp)

  /** The body of a create request. */
  datatype EntryCreate = EntryCreate(studentId: string, studentName: string, items: seq<Item>)

  /** The identity-provider profile a student's browser forwards. */
  datatype GoogleUserData = GoogleUserData(id: string, email: string, name: string, picture: string, sessionToken: string)

  /** The user part of a login response. */
  datatype AuthUser = AuthUser(userId: string, email: string, name: string, role: string, studentId: Option<string>, picture: Option<string>)

  datatype GoogleAuthResponse = GoogleAuthResponse(sessionToken: string, user: AuthUser)

  datatype WorkerLoginResponse = WorkerLoginResponse(token: string, userId: string, email: string, name: string, role: string)

  // ----- the entry invariant -----

  /** What every stored entry satisfies: its total is the sum of its quantities, its status
      is one of the three the server writes, a received entry has no completion date and a
      completed one has one. */
  predicate WellFormed(e: Entry)
  {
    && e.totalItems == SumQuantities(e.items)
    && KnownStatus(e.status)
    && (e.status == RECEIVED ==> e.completionDate.None?)
    && (e.status == COMPLETED ==> e.completionDate.Some?)
  }

  /** The document `create_laundry_entry` inserts. */
  function ReceivedEntry(data: EntryCreate, entryId: string, now: Timestamp, workerId: string): (e: Entry)
    ensures WellFormed(e)
    ensures e.entryId == entryId && e.studentId == data.studentId && e.studentName == data.studentName
    ensures e.items == data.items && e.totalItems == SumQuantities(data.items)
    ensures e.status == RECEIVED && e.completionDate.None? && e.submissionDate == now && e.workerId == workerId
  {
    Entry(entryId, data.studentId, data.studentName, data.items, SumQuantities(data.items), now, None, RECEIVED, workerId)
  }

  // ----- authorisation -----

  predicate IsWorker(u: UserDoc)
  {
    u.role == WORKER
  }

  /** A student may read only their own entries; every other role may read anyone's. */
  predicate MayReadStudent(u: UserDoc, studentId: string)
  {
    !(u.role == STUDENT && u.studentId != Some(studentId))
  }

  /** A student may pick up only an entry filed under their own student id. */
  predicate MayPickup(u: UserDoc, e: Entry)
  {
    !(u.role == STUDENT && Some(e.studentId) != u.studentId)
  }

  lemma StudentReadsOnlyOwn(u: UserDoc, studentId: string)
    requires u.role == STUDENT
    ensures MayReadStudent(u, studentId) <==> u.studentId == Some(studentId)
  {
  }

  // ----- lookups (find_one) -----

  /** The position of the first element satisfying `p`: the document `find_one` returns. */
  function FirstIndex<T>(s: seq<T>, p: T -> bool): (r: Option<nat>)
    ensures r.Some? ==> r.value < |s| && p(s[r.value]) && forall j :: 0 <= j < r.value ==> !p(s[j])
    ensures r.None? ==> forall j :: 0 <= j < |s| ==> !p(s[j])
  {
    if s == [] then None
    else if p(s[0]) then Some(0)
    else match FirstIndex(s[1..], p)
      case None => None
      case Some(k) => Some(k + 1)
  }

  function FindEntry(entries: seq<Entry>, entryId: string): (r: Option<nat>)
    ensures r.Some? ==> r.value < |entries| && entries[r.value].entryId == entryId
                        && forall j :: 0 <= j < r.value ==> entries[j].entryId != entryId
    ensures r.None? ==> forall j :: 0 <= j < |entries| ==> entries[j].entryId != entryId
  {
    FirstIndex(entries, (e: Entry) => e.entryId == entryId)
  }

  function FindUserById(users: seq<UserDoc>, userId: string): (r: Option<nat>)
    ensures r.Some? ==> r.value < |users| && users[r.value].userId == userId
                        && forall j :: 0 <= j < r.value ==> users[j].userId != userId
    ensures r.None? ==> forall j :: 0 <= j < |users| ==> users[j].userId != userId
  {
    FirstIndex(users, (u: UserDoc) => u.userId == userId)
  }

  function FindUserByEmail(users: seq<UserDoc>, email: string): (r: Option<nat>)
    ensures r.Some? ==> r.value < |users| && users[r.value].email == email
                        && forall j :: 0 <= j < r.value ==> users[j].email != email
    ensures r.None? ==> forall j :: 0 <= j < |users| ==> users[j].email != email
  {
    FirstIndex(users, (u: UserDoc) => u.email == email)
  }

  /** `find_one({"email": email, "role": "worker"})`. */
  function FindWorker(users: seq<UserDoc>, email: string): (r: Option<nat>)
    ensures r.Some? ==> r.value < |users| && users[r.value].email == email && users[r.value].role == WORKER
                        && forall j :: 0 <= j < r.value ==> !(users[j].email == email && users[j].role == WORKER)
    ensures r.None? ==> forall j :: 0 <= j < |users| ==> !(users[j].email == email && users[j].role == WORKER)
  {
    FirstIndex(users, (u: UserDoc) => u.email == email && u.role == WORKER)
  }

  // ----- listings: sort by submission date, newest first, at most QUERY_LIMIT -----

  predicate NewestFirst(s: seq<Entry>)
  {
    forall i, j :: 0 <= i < j < |s| ==> s[j].submissionDate <= s[i].submissionDate
  }

  function InsertNewestFirst(e: Entry, s: seq<Entry>): (r: seq<Entry>)
    ensures multiset(r) == multiset(s) + multiset{e}
    ensures |r| == |s| + 1
    ensures r[0] == e || (s != [] && r[0] == s[0])
  {
    if s == [] || s[0].submissionDate <= e.submissionDate then [e] + s
    else
      assert s == [s[0]] + s[1..];
      [s[0]] + InsertNewestFirst(e, s[1..])
  }

  /** Putting an entry no older than the head of a newest-first list in front keeps it so. */
  lemma ConsNewestFirst(h: Entry, s: seq<Entry>)
    requires NewestFirst(s)
    requires s != [] ==> s[0].submissionDate <= h.submissionDate
    ensures NewestFirst([h] + s)
  {
    var r := [h] + s;
    forall i, j | 0 <= i < j < |r| ensures r[j].submissionDate <= r[i].submissionDate {
      if i == 0 {
        assert r[j] == s[j - 1];
        assert s[j - 1].submissionDate <= s[0].submissionDate;
      } else {
        assert r[i] == s[i - 1] && r[j] == s[j - 1];
      }
    }
  }

  lemma {:induction false} InsertKeepsNewestFirst(e: Entry, s: seq<Entry>)
    requires NewestFirst(s)
    ensures NewestFirst(InsertNewestFirst(e, s))
    decreases |s|
  {
    if s == [] || s[0].submissionDate <= e.submissionDate {
      ConsNewestFirst(e, s);
    } else {
      var tail := s[1..];
      assert NewestFirst(tail) by {
        forall i, j | 0 <= i < j < |tail| ensures tail[j].submissionDate <= tail[i].submissionDate {
          assert tail[i] == s[i + 1] && tail[j] == s[j + 1];
        }
      }
      InsertKeepsNewestFirst(e, tail);
      var rest := InsertNewestFirst(e, tail);
      assert rest[0] == e || rest[0] == s[1];
      ConsNewestFirst(s[0], rest);
    }
  }

  /** The entries sorted by submission date, newest first (ties in no particular order). */
  function SortNewestFirst(s: seq<Entry>): (r: seq<Entry>)
    ensures multiset(r) == multiset(s)
    ensures NewestFirst(r)
  {
    if s == [] then []
    else
      assert s == [s[0]] + s[1..];
      var rest := SortNewestFirst(s[1..]);
      InsertKeepsNewestFirst(s[0], rest);
      InsertNewestFirst(s[0], rest)
  }

  /** `find(...).sort("submission_date", -1).to_list(limit)`. */
  function Newest(s: seq<Entry>, limit: nat): seq<Entry>
  {
    var sorted := SortNewestFirst(s);
    if |sorted| <= limit then sorted else sorted[..limit]
  }

  /** In a newest-first list, everything past a cut-off is no newer than anything before it. */
  lemma CutOffIsOlder(sorted: seq<Entry>, limit: nat)
    requires NewestFirst(sorted) && limit <= |sorted|
    ensures forall e, x :: e in sorted[limit..] && x in sorted[..limit] ==> e.submissionDate <= x.submissionDate
  {
    forall e, x | e in sorted[limit..] && x in sorted[..limit]
      ensures e.submissionDate <= x.submissionDate
    {
      var j :| 0 <= j < |sorted| - limit && sorted[limit..][j] == e;
      var i :| 0 <= i < limit && sorted[..limit][i] == x;
      assert sorted[limit + j] == e && sorted[i] == x;
    }
  }

  /** A listing is sorted newest first, holds at most `limit` of the given entries, holds all
      of them when there are no more than `limit`, and every entry it leaves out is no newer
      than any entry it returns. */
  lemma NewestIsTopByDate(s: seq<Entry>, limit: nat)
    ensures NewestFirst(Newest(s, limit))
    ensures |Newest(s, limit)| <= limit && multiset(Newest(s, limit)) <= multiset(s)
    ensures |s| <= limit ==> multiset(Newest(s, limit)) == multiset(s)
    ensures forall e, x :: e in multiset(s) - multiset(Newest(s, limit)) && x in Newest(s, limit)
                           ==> e.submissionDate <= x.submissionDate
  {
    var sorted := SortNewestFirst(s);
    var r := Newest(s, limit);
    assert |sorted| == |s| by {
      assert |multiset(sorted)| == |multiset(s)|;
    }
    if |sorted| > limit {
      var rest := sorted[limit..];
      assert r == sorted[..limit];
      assert sorted == r + rest;
      assert multiset(s) == multiset(r) + multiset(rest);
      assert multiset(s) - multiset(r) == multiset(rest);
      assert NewestFirst(r) by {
        forall i, j | 0 <= i < j < |r| ensures r[j].submissionDate <= r[i].submissionDate {
          assert r[i] == sorted[i] && r[j] == sorted[j];
        }
      }
      CutOffIsOlder(sorted, limit);
      forall e, x | e in multiset(s) - multiset(r) && x in r
        ensures e.submissionDate <= x.submissionDate
      {
        assert e in rest;
      }
    } else {
      assert multiset(s) - multiset(r) == multiset{};
    }
  }

  /** `find({"student_id": studentId})`, in natural order. */
  function OfStudent(s: seq<Entry>, studentId: string): (r: seq<Entry>)
    ensures forall e :: e in r <==> e in s && e.studentId == studentId
    ensures forall e :: multiset(r)[e] == if e.studentId == studentId then multiset(s)[e] else 0
  {
    if s == [] then []
    else
      assert s == [s[0]] + s[1..];
      assert multiset(s) == multiset{s[0]} + multiset(s[1..]);
      (if s[0].studentId == studentId then [s[0]] else []) + OfStudent(s[1..], studentId)
  }

  // ----- student admission -----

  predicate EndsWith(s: string, suffix: string)
  {
    |suffix| <= |s| && s[|s| - |suffix|..] == suffix
  }

  /** The domain rule of `student_google_auth` (and of the browser's sign-in callback). */
  predicate IsInstituteEmail(email: string)
  {
    EndsWith(email, STUDENT_DOMAIN)
  }

  /** `email.split('@')[0]`: the text before the first '@', or all of it when there is none. */
  function LocalPart(email: string): (r: string)
    ensures |r| <= |email| && r == email[..|r|]
    ensures '@' !in r
    ensures |r| < |email| ==> email[|r|] == '@'
  {
    if email == [] || email[0] == '@' then []
    else [email[0]] + LocalPart(email[1..])
  }

  function UpperAscii(c: char): char
  {
    if 'a' <= c <= 'z' then (c as int - 32) as char else c
  }

  /** `str.upper()` on text whose letters are ASCII. */
  function Upper(s: string): (r: string)
    ensures |r| == |s|
    ensures forall i :: 0 <= i < |s| ==> r[i] == UpperAscii(s[i])
  {
    seq(|s|, i requires 0 <= i < |s| => UpperAscii(s[i]))
  }

  /** Raising leaves no lower-case ASCII letter, turns each one into its capital, keeps every
      other character, and raising twice is raising once. */
  lemma UpperRaisesLetters(s: string)
    ensures |Upper(s)| == |s|
    ensures forall i :: 0 <= i < |s| ==> !('a' <= Upper(s)[i] <= 'z')
    ensures forall i :: 0 <= i < |s| && 'a' <= s[i] <= 'z' ==>
              'A' <= Upper(s)[i] <= 'Z' && Upper(s)[i] as int == s[i] as int - 32
    ensures forall i :: 0 <= i < |s| && !('a' <= s[i] <= 'z') ==> Upper(s)[i] == s[i]
    ensures Upper(Upper(s)) == Upper(s)
  {
  }

  function StudentIdFromEmail(email: string): string
  {
    Upper(LocalPart(email))
  }

  /** An institute address has an '@', and the derived student id is the text before the
      first '@' with its lower-case ASCII letters raised: no '@' and no lower-case letter in it. */
  lemma StudentIdOfInstituteEmail(email: string)
    requires IsInstituteEmail(email)
    ensures var sid := StudentIdFromEmail(email);
            && |sid| < |email| && email[|sid|] == '@'
            && (forall i :: 0 <= i < |sid| ==> sid[i] == UpperAscii(email[i]) && email[i] != '@')
            && (forall i :: 0 <= i < |sid| ==> !('a' <= sid[i] <= 'z'))
  {
    var local := LocalPart(email);
    var k := |email| - |STUDENT_DOMAIN|;
    assert email[k..][0] == '@';
    assert '@' in email[k..];
    assert email[k] == '@';
    assert '@' in email;
    assert local != email;
    forall i | 0 <= i < |local| ensures email[i] != '@' {
      assert local[i] == email[i];
    }
  }

  /** The local part of `name@rest` is `name` when `name` has no '@'. */
  lemma {:induction false} LocalPartOfAddress(name: string, rest: string)
    requires '@' !in name && rest != [] && rest[0] == '@'
    ensures LocalPart(name + rest) == name
    decreases |name|
  {
    if name != [] {
      assert (name + rest)[1..] == name[1..] + rest;
      LocalPartOfAddress(name[1..], rest);
    }
  }

  lemma StudentIdExample()
    ensures StudentIdFromEmail("21bcs001@iiitdwd.ac.in") == "21BCS001"
  {
    var name, domain := "21bcs001", "@iiitdwd.ac.in";
    assert name + domain == "21bcs001@iiitdwd.ac.in";
    LocalPartOfAddress(name, domain);
    var upper := Upper(name);
    assert upper[0] == '2' && upper[1] == '1' && upper[2] == 'B' && upper[3] == 'C';
    assert upper[4] == 'S' && upper[5] == '0' && upper[6] == '0' && upper[7] == '1';
    assert upper == "21BCS001";
  }

  function NewStudent(data: GoogleUserData, userId: string, now: Timestamp): UserDoc
  {
    UserDoc(userId, data.email, data.name, STUDENT, Some(StudentIdFromEmail(data.email)), Some(data.picture), None, Some(now))
  }

  /** The user id a successful admission ends up with: the existing user's, or the new one. */
  function AdmittedUserId(users: seq<UserDoc>, data: GoogleUserData, newUserId: string): string
  {
    match FindUserByEmail(users, data.email)
    case Some(i) => users[i].userId
    case None => newUserId
  }

  /** The users table after a student with an institute address signs in: an existing user
      (found by email) has name and picture refreshed, through the first user with its user
      id; otherwise a new student is appended. */
  function AdmittedUsers(users: seq<UserDoc>, data: GoogleUserData, newUserId: string, now: Timestamp): (r: seq<UserDoc>)
    ensures FindUserByEmail(users, data.email).None? ==>
              && |r| == |users| + 1 && r[..|users|] == users
              && r[|users|].userId == newUserId && r[|users|].email == data.email
              && r[|users|].role == STUDENT && r[|users|].studentId == Some(StudentIdFromEmail(data.email))
    ensures FindUserByEmail(users, data.email).Some? ==>
              && |r| == |users|
              && forall k :: 0 <= k < |r| ==>
                   && r[k].userId == users[k].userId && r[k].email == users[k].email
                   && r[k].role == users[k].role && r[k].studentId == users[k].studentId
                   && r[k].passwordHash == users[k].passwordHash
    ensures FindUserByEmail(users, data.email).Some? ==>
              var j := FindUserById(users, users[FindUserByEmail(users, data.email).value].userId).value;
              && (forall k :: 0 <= k < |r| && k != j ==> r[k] == users[k])
              && r[j] == users[j].(name := data.name, picture := Some(data.picture))
    ensures FindUserById(r, AdmittedUserId(users, data, newUserId)).Some?
  {
    match FindUserByEmail(users, data.email)
    case Some(i) =>
      var j := FindUserById(users, users[i].userId).value;
      var r := users[j := users[j].(name := data.name, picture := Some(data.picture))];
      assert r[j].userId == users[i].userId;
      r
    case None =>
      var r := users + [NewStudent(data, newUserId, now)];
      assert r[|users|].userId == newUserId;
      r
  }

  /** The admitted user's refreshed or created record carries the profile's name and
      picture. A brand-new student whose generated id is unused is found by that id. */
  lemma AdmittedUserCarriesProfile(users: seq<UserDoc>, data: GoogleUserData, newUserId: string, now: Timestamp)
    requires FindUserByEmail(users, data.email).Some? || FindUserById(users, newUserId).None?
    ensures var r := AdmittedUsers(users, data, newUserId, now);
            var j := FindUserById(r, AdmittedUserId(users, data, newUserId)).value;
            r[j].name == data.name && r[j].picture == Some(data.picture)
  {
    var r := AdmittedUsers(users, data, newUserId, now);
    match FindUserByEmail(users, data.email)
    case Some(i) =>
      var uid := users[i].userId;
      var j := FindUserById(users, uid).value;
      assert r == users[j := users[j].(name := data.name, picture := Some(data.picture))];
      var j' := FindUserById(r, uid).value;
      assert r[j].userId == uid;
      forall m | 0 <= m < j ensures r[m].userId != uid {
        assert r[m] == users[m];
      }
    case None =>
      assert r == users + [NewStudent(data, newUserId, now)];
      var j' := FindUserById(r, newUserId).value;
      assert r[|users|].userId == newUserId;
      forall m | 0 <= m < |users| ensures r[m].userId != newUserId {
        assert r[m] == users[m];
      }
  }

  function AuthView(u: UserDoc): AuthUser
  {
    AuthUser(u.userId, u.email, u.name, u.role, u.studentId, u.picture)
  }

  predicate HasPasswordHash(u: UserDoc)
  {
    u.passwordHash.Some? && u.passwordHash.value != ""
  }

  class LaundryServer {
    var users: seq<UserDoc>
    var sessions: seq<SessionDoc>
    var entries: seq<Entry>

    ghost predicate Valid()
      reads this
    {
      forall i :: 0 <= i < |entries| ==> WellFormed(entries[i])
    }

    /** A server whose users were seeded out of band and which holds no entries yet. */
    constructor (seeded: seq<UserDoc>)
      ensures Valid()
      ensures users == seeded && sessions == [] && entries == []
    {
      users := seeded;
      sessions := [];
      entries := [];
    }

    /** `get_current_user`, given the user id the bearer token decodes to (None when the
        token does not verify). */
    function CurrentUser(tokenUserId: Option<string>): (r: Result<UserDoc, HttpError>)
      reads this
      ensures tokenUserId.None? ==> r == Failure(HttpError(401, "Invalid token"))
      ensures tokenUserId.Some? ==>
                (r.Failure? <==> forall j :: 0 <= j < |users| ==> users[j].userId != tokenUserId.value)
      ensures tokenUserId.Some? && r.Failure? ==> r == Failure(HttpError(401, "User not found"))
      ensures r.Success? ==> r.value in users && Some(r.value.userId) == tokenUserId
      ensures r.Success? ==> r.value == users[FindUserById(users, tokenUserId.value).value]
    {
      match tokenUserId
      case None => Failure(HttpError(401, "Invalid token"))
      case Some(uid) =>
        match FindUserById(users, uid)
        case None => Failure(HttpError(401, "User not found"))
        case Some(i) => Success(users[i])
    }

    /** `worker_login`: the three failures are checked in this order, and success names the
        worker whose stored hash the password matches. */
    function WorkerLogin(email: string, password: string,
                         checkPassword: (string, string) -> bool,
                         createToken: (string, string, string) -> string): (r: Result<WorkerLoginResponse, HttpError>)
      reads this
      ensures var w := FindWorker(users, email);
              && (w.None? ==> r == Failure(HttpError(401, "Worker not found")))
              && (w.Some? && !HasPasswordHash(users[w.value]) ==>
                    r == Failure(HttpError(401, "Invalid authentication method")))
              && (w.Some? && HasPasswordHash(users[w.value]) && !checkPassword(password, users[w.value].passwordHash.value) ==>
                    r == Failure(HttpError(401, "Invalid credentials")))
              && (w.Some? && HasPasswordHash(users[w.value]) && checkPassword(password, users[w.value].passwordHash.value) ==>
                    var u := users[w.value];
                    r == Success(WorkerLoginResponse(createToken(u.userId, u.email, u.role), u.userId, u.email, u.name, u.role)))
      ensures r.Success? ==>
                exists u :: u in users && u.email == email && u.role == WORKER && HasPasswordHash(u)
                            && checkPassword(password, u.passwordHash.value)
                            && r.value == WorkerLoginResponse(createToken(u.userId, u.email, u.role), u.userId, u.email, u.name, u.role)
    {
      match FindWorker(users, email)
      case None => Failure(HttpError(401, "Worker not found"))
      case Some(i) =>
        var u := users[i];
        if !HasPasswordHash(u) then Failure(HttpError(401, "Invalid authentication method"))
        else if !checkPassword(password, u.passwordHash.value) then Failure(HttpError(401, "Invalid credentials"))
        else Success(WorkerLoginResponse(createToken(u.userId, u.email, u.role), u.userId, u.email, u.name, u.role))
    }

    /** `create_laundry_entry`. */
    method CreateLaundryEntry(current: UserDoc, data: EntryCreate, entryId: string, now: Timestamp)
      returns (r: Result<string, HttpError>)
      requires Valid()
      modifies this
      ensures Valid()
      ensures users == old(users) && sessions == old(sessions)
      ensures !IsWorker(current) ==>
                r == Failure(HttpError(403, "Only workers can create entries")) && entries == old(entries)
      ensures IsWorker(current) ==>
                r == Success(entryId) && entries == old(entries) + [ReceivedEntry(data, entryId, now, current.userId)]
    {
      if !IsWorker(current) {
        return Failure(HttpError(403, "Only workers can create entries"));
      }
      var entry := ReceivedEntry(data, entryId, now, current.userId);
      entries := entries + [entry];
      r := Success(entryId);
    }

    /** `get_all_laundry`. */
    function GetAllLaundry(current: UserDoc): (r: Result<seq<Entry>, HttpError>)
      reads this
      ensures !IsWorker(current) ==> r == Failure(HttpError(403, "Only workers can view all entries"))
      ensures IsWorker(current) ==>
                && r.Success? && NewestFirst(r.value)
                && |r.value| <= QUERY_LIMIT && multiset(r.value) <= multiset(entries)
                && (|entries| <= QUERY_LIMIT ==> multiset(r.value) == multiset(entries))
                && (forall e, x :: e in multiset(entries) - multiset(r.value) && x in r.value
                                   ==> e.submissionDate <= x.submissionDate)
      ensures IsWorker(current) && Valid() ==> forall e :: e in r.value ==> WellFormed(e)
    {
      if !IsWorker(current) then Failure(HttpError(403, "Only workers can view all entries"))
      else
        NewestIsTopByDate(entries, QUERY_LIMIT);
        var listed := Newest(entries, QUERY_LIMIT);
        assert forall e :: e in listed ==> e in entries by {
          forall e | e in listed ensures e in entries {
            assert e in multiset(listed);
          }
        }
        Success(listed)
    }

    /** `get_student_laundry`. */
    function GetStudentLaundry(current: UserDoc, studentId: string): (r: Result<seq<Entry>, HttpError>)
      reads this
      ensures !MayReadStudent(current, studentId) ==> r == Failure(HttpError(403, "Cannot access other student's data"))
      ensures MayReadStudent(current, studentId) ==>
                && r.Success? && NewestFirst(r.value) && |r.value| <= QUERY_LIMIT
                && (forall e :: e in r.value ==> e in entries && e.studentId == studentId)
                && (|OfStudent(entries, studentId)| <= QUERY_LIMIT ==>
                      forall e :: e in entries && e.studentId == studentId ==> e in r.value)
      ensures MayReadStudent(current, studentId) ==>
                var own := OfStudent(entries, studentId);
                && r.Success? && multiset(r.value) <= multiset(own)
                && (|own| <= QUERY_LIMIT ==> multiset(r.value) == multiset(own))
                && (forall e, x :: e in multiset(own) - multiset(r.value) && x in r.value
                                   ==> e.submissionDate <= x.submissionDate)
      ensures MayReadStudent(current, studentId) && Valid() ==> r.Success? && forall e :: e in r.value ==> WellFormed(e)
    {
      if !MayReadStudent(current, studentId) then Failure(HttpError(403, "Cannot access other student's data"))
      else
        var own := OfStudent(entries, studentId);
        NewestIsTopByDate(own, QUERY_LIMIT);
        var listed := Newest(own, QUERY_LIMIT);
        assert forall e :: e in listed ==> e in own by {
          forall e | e in listed ensures e in own {
            assert e in multiset(listed);
          }
        }
        assert |own| <= QUERY_LIMIT ==> forall e :: e in own ==> e in listed by {
          if |own| <= QUERY_LIMIT {
            forall e | e in own ensures e in listed {
              assert e in multiset(own);
            }
          }
        }
        Success(listed)
    }

    /** `complete_laundry`, status part: sets `completed` and a completion date whatever the
        entry's status was. */
    method CompleteLaundry(current: UserDoc, entryId: string, now: Timestamp)
      returns (r: Result<string, HttpError>)
      requires Valid()
      modifies this
      ensures Valid()
      ensures users == old(users) && sessions == old(sessions)
      ensures !IsWorker(current) ==>
                r == Failure(HttpError(403, "Only workers can mark as completed")) && entries == old(entries)
      ensures IsWorker(current) && FindEntry(old(entries), entryId).None? ==>
                r == Failure(HttpError(404, "Entry not found")) && entries == old(entries)
      ensures IsWorker(current) && FindEntry(old(entries), entryId).Some? ==>
                var i := FindEntry(old(entries), entryId).value;
                && r == Success(entryId)
                && entries == old(entries)[i := old(entries)[i].(status := COMPLETED, completionDate := Some(now))]
    {
      if !IsWorker(current) {
        return Failure(HttpError(403, "Only workers can mark as completed"));
      }
      var found := FindEntry(entries, entryId);
      if found.None? {
        return Failure(HttpError(404, "Entry not found"));
      }
      var i := found.value;
      entries := entries[i := entries[i].(status := COMPLETED, completionDate := Some(now))];
      r := Success(entryId);
    }

    /** `pickup_laundry`: the unknown id is reported before the ownership check, and only the
        status changes. */
    method PickupLaundry(current: UserDoc, entryId: string) returns (r: Result<string, HttpError>)
      requires Valid()
      modifies this
      ensures Valid()
      ensures users == old(users) && sessions == old(sessions)
      ensures FindEntry(old(entries), entryId).None? ==>
                r == Failure(HttpError(404, "Entry not found")) && entries == old(entries)
      ensures FindEntry(old(entries), entryId).Some? ==>
                var i := FindEntry(old(entries), entryId).value;
                && (!MayPickup(current, old(entries)[i]) ==>
                      r == Failure(HttpError(403, "Cannot mark other student's laundry")) && entries == old(entries))
                && (MayPickup(current, old(entries)[i]) ==>
                      r == Success(entryId) && entries == old(entries)[i := old(entries)[i].(status := PICKED_UP)])
    {
      var found := FindEntry(entries, entryId);
      if found.None? {
        return Failure(HttpError(404, "Entry not found"));
      }
      var i := found.value;
      if !MayPickup(current, entries[i]) {
        return Failure(HttpError(403, "Cannot mark other student's laundry"));
      }
      entries := entries[i := entries[i].(status := PICKED_UP)];
      r := Success(entryId);
    }

    /** The users-table part of `student_google_auth`: refresh the user with this email, or
        insert a new student. */
    method AdmitStudent(data: GoogleUserData, newUserId: string, now: Timestamp) returns (userId: string)
      requires Valid()
      modifies this
      ensures Valid()
      ensures users == AdmittedUsers(old(users), data, newUserId, now)
      ensures userId == AdmittedUserId(old(users), data, newUserId)
      ensures entries == old(entries) && sessions == old(sessions)
    {
      var existing := FindUserByEmail(users, data.email);
      if existing.Some? {
        userId := users[existing.value].userId;
        var j := FindUserById(users, userId).value;
        users := users[j := users[j].(name := data.name, picture := Some(data.picture))];
      } else {
        userId := newUserId;
        users := users + [NewStudent(data, newUserId, now)];
      }
    }

    /** `student_google_auth` as written: once the domain check passes, the users table is
        updated, and then building the session document evaluates `timedelta`, which the
        module never imports. The handler stops there with an internal server error, so no
        session is stored and no response reaches the student. */
    method StudentGoogleAuth(data: GoogleUserData, newUserId: string, now: Timestamp)
      returns (r: Result<GoogleAuthResponse, HttpError>)
      requires Valid()
      modifies this
      ensures Valid()
      ensures entries == old(entries) && sessions == old(sessions)
      ensures !IsInstituteEmail(data.email) ==>
                r == Failure(HttpError(403, "Only @iiitdwd.ac.in emails allowed")) && users == old(users)
      ensures IsInstituteEmail(data.email) ==>
                r == Failure(INTERNAL_SERVER_ERROR) && users == AdmittedUsers(old(users), data, newUserId, now)
    {
      if !IsInstituteEmail(data.email) {
        return Failure(HttpError(403, "Only @iiitdwd.ac.in emails allowed"));
      }
      var _ := AdmitStudent(data, newUserId, now);
      r := Failure(INTERNAL_SERVER_ERROR);
    }

    /** `student_google_auth` as its authors evidently meant it, with `timedelta` available:
        a seven-day session is stored for the admitted user, who is returned with the
        provider's session token. */
    method StudentGoogleAuthWithSession(data: GoogleUserData, newUserId: string, now: Timestamp)
      returns (r: Result<GoogleAuthResponse, HttpError>)
      requires Valid()
      modifies this
      ensures Valid()
      ensures entries == old(entries)
      ensures !IsInstituteEmail(data.email) ==>
                r == Failure(HttpError(403, "Only @iiitdwd.ac.in emails allowed"))
                && users == old(users) && sessions == old(sessions)
      ensures IsInstituteEmail(data.email) ==>
                var uid := AdmittedUserId(old(users), data, newUserId);
                && users == AdmittedUsers(old(users), data, newUserId, now)
                && sessions == old(sessions) + [SessionDoc(uid, data.sessionToken, now + SESSION_LIFETIME, now)]
                && r.Success? && r.value.sessionToken == data.sessionToken && r.value.user.userId == uid
      ensures IsInstituteEmail(data.email) ==>
                r == Success(GoogleAuthResponse(data.sessionToken,
                       AuthView(users[FindUserById(users, AdmittedUserId(old(users), data, newUserId)).value])))
      ensures IsInstituteEmail(data.email) && FindUserByEmail(old(users), data.email).None?
              && FindUserById(old(users), newUserId).None? ==>
                r.Success? && r.value.user.role == STUDENT && r.value.user.email == data.email
                && r.value.user.studentId == Some(StudentIdFromEmail(data.email))
    {
      if !IsInstituteEmail(data.email) {
        return Failure(HttpError(403, "Only @iiitdwd.ac.in emails allowed"));
      }
      ghost var before := users;
      var userId := AdmitStudent(data, newUserId, now);
      sessions := sessions + [SessionDoc(userId, data.sessionToken, now + SESSION_LIFETIME, now)];
      var found := FindUserById(users, userId);
      var i := found.value;
      if FindUserByEmail(before, data.email).None? && FindUserById(before, newUserId).None? {
        assert users[|before|].userId == newUserId;
        forall m | 0 <= m < |before| ensures users[m].userId != newUserId {
          assert users[m] == before[m];
        }
      }
      r := Success(GoogleAuthResponse(data.sessionToken, AuthView(users[i])));
    }
  }

  /** The sign-in of a first-time student as `student_google_auth` is written: the student
      is stored, and the request fails with an internal server error. */
  method GoogleAuthAsWrittenFails() returns (r: Result<GoogleAuthResponse, HttpError>, stored: seq<UserDoc>)
    ensures r == Failure(INTERNAL_SERVER_ERROR)
    ensures |stored| == 1 && stored[0].role == STUDENT && stored[0].studentId == Some("21BCS001")
  {
    var server := new LaundryServer([]);
    var profile := GoogleUserData("g-1", "21bcs001@iiitdwd.ac.in", "A. Student", "avatar.png", "session-1");
    assert EndsWith(profile.email, STUDENT_DOMAIN) by {
      assert profile.email[|profile.email| - |STUDENT_DOMAIN|..] == STUDENT_DOMAIN;
    }
    StudentIdExample();
    r := server.StudentGoogleAuth(profile, "user_000000000001", 0);
    stored := server.users;
  }

  /** A create with two shirts and one pair of trousers stores a total of three items. */
  lemma TotalItemsExample(entryId: string, now: Timestamp, workerId: string)
    ensures ReceivedEntry(EntryCreate("21BCS001", "A. Student", [Item("Shirt", 2), Item("Pants", 1)]), entryId, now, workerId).totalItems == 3
  {
    assert [Item("Shirt", 2), Item("Pants", 1)][1..] == [Item("Pants", 1)];
  }

  /** Neither `complete_laundry` nor `pickup_laundry` looks at the entry's status: a received
      entry can be picked up before it was ever completed, and a picked-up entry can then be
      completed, getting a completion date. */
  method CompleteAfterPickupAccepted() returns (r: Result<string, HttpError>, e: Entry)
    ensures r == Success("entry-1")
    ensures e.status == COMPLETED && e.completionDate == Some(3)
  {
    var worker := UserDoc("user_w", "staff@example.org", "Staff", WORKER, None, None, Some("hash"), None);
    var server := new LaundryServer([worker]);
    var data := EntryCreate("21BCS001", "A. Student", [Item("Shirt", 2)]);
    var _ := server.CreateLaundryEntry(worker, data, "entry-1", 1);
    assert server.entries[0].entryId == "entry-1";
    var _ := server.PickupLaundry(worker, "entry-1");
    assert server.entries[0].status == PICKED_UP;
    r := server.CompleteLaundry(worker, "entry-1", 3);
    e := server.entries[0];
  }
}
