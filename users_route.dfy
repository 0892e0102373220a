/** User creation (app/api/users/route.ts, POST): an auth identity and a user document
    created as one logical unit, with a compensating delete of the identity when the
    document write fails. The document store and the auth service are maps; whether
    each call to them completes is given by `Outcomes`. */
module UsersRoute {
  import opened Prelude
  import opened Types

  const EmailDomain := "@college.edu"
  const InitialPassword := "campus"

  /** A stored college document; its `abbrv` and `name` fields may be missing. */
  datatype CollegeRecord = CollegeRecord(abbrv: Option<string>, name: Option<string>)

  /** A login identity of the auth service. */
  datatype Identity = Identity(email: string, password: string, displayName: string, emailVerified: bool)

  /** The documents and identities one request can see or change. `programmes` is the
      programme sub-collection of each college, by college id. */
  datatype Store = Store(
    colleges: map<Id, CollegeRecord>,
    programmes: map<Id, map<Id, Programme>>,
    identities: map<Id, Identity>,
    users: map<Id, User>)

  /** The JSON body of the request; absent fields are `None`. */
  datatype UserRequest = UserRequest(
    fullName: string,
    regNo: string,
    collegeId: Id,
    programmeId: Option<Id>,
    startDate: string,
    endDate: string,
    roles: Option<string>,
    profilePicUrl: Option<string>)

  /** How each external call of one request turns out: whether the college and programme
      reads complete, the uid the auth service assigns (`None`: `createUser` throws),
      whether the user document write completes, and whether the compensating delete does. */
  datatype Outcomes = Outcomes(
    collegeRead: bool,
    programmeRead: bool,
    grantedUid: Option<Id>,
    userWritten: bool,
    identityDeleted: bool)

  datatype Response = Created(id: Id) | Failed(status: nat, error: string)

  const CollegeNotFound := Failed(400, "College not found")
  const IdentityFailed := Failed(500, "Failed to create authentication user")
  const CreateFailed := Failed(500, "Failed to create user")

  /** The outcome of reading one document. */
  datatype Read<T> = ReadThrew | Absent | Found(doc: T)

  /** The login email derived from a registration number. */
  function LoginEmail(regNo: string): (email: string)
    ensures |email| == |regNo| + |EmailDomain|
    ensures email[..|regNo|] == regNo && email[|regNo|..] == EmailDomain
  {
    regNo + EmailDomain
  }

  /** The identity `createUser` is asked for: the derived login email, the initial
      password, the full name as display name, and already verified. */
  function NewIdentity(req: UserRequest): (id: Identity)
    ensures id.email == LoginEmail(req.regNo) && id.password == InitialPassword
    ensures id.displayName == req.fullName && id.emailVerified
  {
    Identity(LoginEmail(req.regNo), InitialPassword, req.fullName, true)
  }

  predicate EmailTaken(identities: map<Id, Identity>, email: string) {
    exists uid :: uid in identities && identities[uid].email == email
  }

  /** The auth service assigns an unused uid and refuses an email it already holds. */
  predicate IdentityGranted(identities: map<Id, Identity>, identity: Identity, granted: Option<Id>) {
    granted.Some? && granted.value !in identities && !EmailTaken(identities, identity.email)
  }

  /** No two identities share a login email. */
  predicate UniqueEmails(identities: map<Id, Identity>) {
    forall a, b :: a in identities && b in identities && identities[a].email == identities[b].email ==> a == b
  }

  /** Every user document has an identity with the same id, and the other way round. */
  predicate Paired(st: Store) {
    st.users.Keys == st.identities.Keys
  }

  /** The programme snapshot: the stored programme when `programmeId` is given and resolves
      under the college, otherwise the empty programme. */
  function ProgrammeSnapshot(st: Store, req: UserRequest): (p: Programme)
    ensures p.duration.None? && p.description.None?
    ensures !Truthy(req.programmeId) ==> p == Programme("", "", 0, None, None)
  {
    if Truthy(req.programmeId) && req.collegeId in st.programmes
       && req.programmeId.value in st.programmes[req.collegeId]
    then
      var stored := st.programmes[req.collegeId][req.programmeId.value];
      Programme(stored.abbrv, stored.name, stored.years, None, None)
    else Programme("", "", 0, None, None)
  }

  /** The user document written for a request whose college exists. */
  function UserRecord(st: Store, req: UserRequest): (u: User)
    requires req.collegeId in st.colleges
    ensures u.college.id == req.collegeId && u.college.programme.None?
    ensures u.college.abbrv == OrEmpty(st.colleges[req.collegeId].abbrv)
    ensures u.college.name == OrEmpty(st.colleges[req.collegeId].name)
    ensures u.profilePicUrl == Some(OrEmpty(req.profilePicUrl))
    ensures u.roles == ParseCommaList(req.roles)
  {
    var college := st.colleges[req.collegeId];
    User(
      College(OrEmpty(college.abbrv), req.collegeId, OrEmpty(college.name), None),
      DateText(req.endDate),
      req.fullName,
      req.regNo,
      ParseCommaList(req.roles),
      DateText(req.startDate),
      ProgrammeSnapshot(st, req),
      Some(OrEmpty(req.profilePicUrl)))
  }

  /** After a failed document write whose compensating delete also failed, the identity
      created by this request is the one thing left behind. */
  predicate OrphanLeft(st: Store, st': Store, req: UserRequest, env: Outcomes) {
    && !env.userWritten && !env.identityDeleted
    && env.grantedUid.Some? && env.grantedUid.value !in st.identities
    && st' == st.(identities := st.identities[env.grantedUid.value := NewIdentity(req)])
  }

  /** The whole POST handler on a store value: the new store and the response. */
  function CreateUser(st: Store, req: UserRequest, env: Outcomes): (r: (Store, Response))
    // success: both records exist under the one id, and nothing else changed
    ensures r.1.Created? ==>
      && req.collegeId in st.colleges
      && r.1.id !in st.identities
      && r.0 == st.(identities := st.identities[r.1.id := NewIdentity(req)],
                    users := st.users[r.1.id := UserRecord(st, req)])
    // failure: nothing changed, or the only leftover is an identity whose delete failed
    ensures r.1.Failed? ==> r.0 == st || OrphanLeft(st, r.0, req, env)
  {
    if !env.collegeRead then (st, CreateFailed)
    else if req.collegeId !in st.colleges then (st, CollegeNotFound)
    else if Truthy(req.programmeId) && !env.programmeRead then (st, CreateFailed)
    else if !IdentityGranted(st.identities, NewIdentity(req), env.grantedUid) then (st, IdentityFailed)
    else
      var uid := env.grantedUid.value;
      var withIdentity := st.(identities := st.identities[uid := NewIdentity(req)]);
      if env.userWritten then
        (withIdentity.(users := st.users[uid := UserRecord(st, req)]), Created(uid))
      else if env.identityDeleted then
        assert withIdentity.identities - {uid} == st.identities;
        (withIdentity.(identities := withIdentity.identities - {uid}), CreateFailed)
      else (withIdentity, CreateFailed)
  }

  /** A missing college is a 400 with no side effect. */
  lemma CollegeMissing(st: Store, req: UserRequest, env: Outcomes)
    requires env.collegeRead && req.collegeId !in st.colleges
    ensures CreateUser(st, req, env) == (st, CollegeNotFound)
  {
  }

  /** A refused identity is a 500 with no side effect: no user document is written. */
  lemma IdentityRefused(st: Store, req: UserRequest, env: Outcomes)
    requires env.collegeRead && req.collegeId in st.colleges
    requires !Truthy(req.programmeId) || env.programmeRead
    requires !IdentityGranted(st.identities, NewIdentity(req), env.grantedUid)
    ensures CreateUser(st, req, env) == (st, IdentityFailed)
  {
  }

  /** On success the identity has the derived email, the fixed password, the full name as
      display name and is pre-verified; the user document sits under the same uid. */
  lemma CreatedRecords(st: Store, req: UserRequest, env: Outcomes)
    requires CreateUser(st, req, env).1.Created?
    ensures var (st', resp) := CreateUser(st, req, env);
      && resp.id == env.grantedUid.value
      && resp.id in st'.identities && resp.id in st'.users
      && st'.identities[resp.id].email == req.regNo + "@college.edu"
      && st'.identities[resp.id].password == "campus"
      && st'.identities[resp.id].displayName == req.fullName
      && st'.identities[resp.id].emailVerified
      && st'.users[resp.id].regNo == req.regNo
  {
  }

  /** A request whose every step completes is answered `Created` with the granted uid,
      and both records are stored under it. */
  lemma CompletedRequestCreated(st: Store, req: UserRequest, env: Outcomes)
    requires env.collegeRead && req.collegeId in st.colleges
    requires !Truthy(req.programmeId) || env.programmeRead
    requires IdentityGranted(st.identities, NewIdentity(req), env.grantedUid)
    requires env.userWritten
    ensures var uid := env.grantedUid.value;
      CreateUser(st, req, env)
        == (st.(identities := st.identities[uid := NewIdentity(req)],
                users := st.users[uid := UserRecord(st, req)]),
            Created(uid))
  {
  }

  /** An empty or unresolved programme id is not an error: when the other steps complete,
      the user is created, with the empty programme. */
  lemma SoftProgramme(st: Store, req: UserRequest, env: Outcomes)
    requires env.collegeRead && req.collegeId in st.colleges
    requires !Truthy(req.programmeId) || env.programmeRead
    requires IdentityGranted(st.identities, NewIdentity(req), env.grantedUid)
    requires env.userWritten
    requires !Truthy(req.programmeId) || req.collegeId !in st.programmes
             || req.programmeId.value !in st.programmes[req.collegeId]
    ensures CreateUser(st, req, env).1 == Created(env.grantedUid.value)
    ensures var (st', resp) := CreateUser(st, req, env);
      st'.users[resp.id].programme == Programme("", "", 0, None, None)
  {
  }

  /** A failed document write triggers the delete; if the delete completes, the store is as before. */
  lemma CompensationRestores(st: Store, req: UserRequest, env: Outcomes)
    requires env.collegeRead && req.collegeId in st.colleges
    requires !Truthy(req.programmeId) || env.programmeRead
    requires IdentityGranted(st.identities, NewIdentity(req), env.grantedUid)
    requires !env.userWritten
    ensures CreateUser(st, req, env).1 == CreateFailed
    ensures env.identityDeleted ==> CreateUser(st, req, env).0 == st
    ensures !env.identityDeleted ==> OrphanLeft(st, CreateUser(st, req, env).0, req, env)
  {
  }

  /** Identity/document pairing: from a paired store, a request leaves a paired store,
      except for the identity left by a failed compensating delete. */
  lemma PairingPreserved(st: Store, req: UserRequest, env: Outcomes)
    requires Paired(st)
    ensures var st' := CreateUser(st, req, env).0;
      Paired(st') || OrphanLeft(st, st', req, env)
  {
  }

  /** The auth service's refusal of registered emails keeps login emails unique. */
  lemma UniqueEmailsPreserved(st: Store, req: UserRequest, env: Outcomes)
    requires UniqueEmails(st.identities)
    ensures UniqueEmails(CreateUser(st, req, env).0.identities)
  {
    var (st', resp) := CreateUser(st, req, env);
    if st' != st {
      var uid := env.grantedUid.value;
      assert st'.identities == st.identities[uid := NewIdentity(req)];
      assert !EmailTaken(st.identities, NewIdentity(req).email);
    }
  }

  /** The document store and auth service as the handler sees them. */
  class Backend {
    var colleges: map<Id, CollegeRecord>
    var programmes: map<Id, map<Id, Programme>>
    var identities: map<Id, Identity>
    var users: map<Id, User>

    function State(): Store
      reads this
    {
      Store(colleges, programmes, identities, users)
    }

    constructor (initial: Store)
      ensures State() == initial
    {
      colleges := initial.colleges;
      programmes := initial.programmes;
      identities := initial.identities;
      users := initial.users;
    }

    /** `db.collection("colleges").doc(id).get()` */
    method ReadCollege(id: Id, completes: bool) returns (r: Read<CollegeRecord>)
      ensures !completes ==> r.ReadThrew?
      ensures completes && id in colleges ==> r == Found(colleges[id])
      ensures completes && id !in colleges ==> r.Absent?
    {
      if !completes {
        r := ReadThrew;
      } else if id in colleges {
        r := Found(colleges[id]);
      } else {
        r := Absent;
      }
    }

    /** `db.collection("colleges").doc(college).collection("programmes").doc(id).get()` */
    method ReadProgramme(college: Id, id: Id, completes: bool) returns (r: Read<Programme>)
      ensures !completes ==> r.ReadThrew?
      ensures completes && college in programmes && id in programmes[college] ==> r == Found(programmes[college][id])
      ensures completes && !(college in programmes && id in programmes[college]) ==> r.Absent?
    {
      if !completes {
        r := ReadThrew;
      } else if college in programmes && id in programmes[college] {
        r := Found(programmes[college][id]);
      } else {
        r := Absent;
      }
    }

    /** `auth.createUser(...)`: returns the new uid, or `None` when the service throws. */
    method CreateIdentity(identity: Identity, granted: Option<Id>) returns (uid: Option<Id>)
      modifies this`identities
      ensures uid.Some? <==> IdentityGranted(old(identities), identity, granted)
      ensures uid.Some? ==> uid == granted && identities == old(identities)[uid.value := identity]
      ensures uid.None? ==> identities == old(identities)
    {
      if IdentityGranted(identities, identity, granted) {
        uid := granted;
        identities := identities[uid.value := identity];
      } else {
        uid := None;
      }
    }

    /** `auth.deleteUser(uid)` */
    method DeleteIdentity(uid: Id, completes: bool) returns (ok: bool)
      modifies this`identities
      ensures ok == completes
      ensures identities == if completes then old(identities) - {uid} else old(identities)
    {
      ok := completes;
      if completes {
        identities := identities - {uid};
      }
    }

    /** `db.collection("users").doc(uid).set(user)` */
    method SetUser(uid: Id, user: User, completes: bool) returns (ok: bool)
      modifies this`users
      ensures ok == completes
      ensures users == if completes then old(users)[uid := user] else old(users)
    {
      ok := completes;
      if completes {
        users := users[uid := user];
      }
    }

    /** The POST handler, step by step. */
    method Post(req: UserRequest, env: Outcomes) returns (resp: Response)
      modifies this`identities, this`users
      ensures (State(), resp) == CreateUser(old(State()), req, env)
    {
      var collegeDoc := ReadCollege(req.collegeId, env.collegeRead);
      if collegeDoc.ReadThrew? {
        return CreateFailed;
      }
      if collegeDoc.Absent? {
        return CollegeNotFound;
      }
      var programmeData: Option<Programme> := None;
      if Truthy(req.programmeId) {
        var programmeDoc := ReadProgramme(req.collegeId, req.programmeId.value, env.programmeRead);
        if programmeDoc.ReadThrew? {
          return CreateFailed;
        }
        if programmeDoc.Found? {
          programmeData := Some(programmeDoc.doc);
        }
      }
      var identity := NewIdentity(req);
      var authUserId := CreateIdentity(identity, env.grantedUid);
      if authUserId.None? {
        return IdentityFailed;
      }
      var college := collegeDoc.doc;
      var user := User(
        College(OrEmpty(college.abbrv), req.collegeId, OrEmpty(college.name), None),
        DateText(req.endDate),
        req.fullName,
        req.regNo,
        ParseCommaList(req.roles),
        DateText(req.startDate),
        if programmeData.Some?
        then Programme(programmeData.value.abbrv, programmeData.value.name, programmeData.value.years, None, None)
        else Programme("", "", 0, None, None),
        Some(OrEmpty(req.profilePicUrl)));
      var written := SetUser(authUserId.value, user, env.userWritten);
      if !written {
        // the outcome of the compensating delete is swallowed
        var _ := DeleteIdentity(authUserId.value, env.identityDeleted);
        return CreateFailed;
      }
      resp := Created(authUserId.value);
    }
  }
}
