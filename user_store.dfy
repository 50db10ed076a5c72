/** The backend's account handlers over the `users` table: register, login,
    the pending list, approval and rejection (backend/app.py). The table is a
    map from id to row; each handler answers an HTTP status code and a JSON
    body. */
module UserStore {
  import opened Wrappers

  /** The `role` column: 'user' or 'admin'. */
  datatype Role = Member | Admin

  /** The `status` column: 'provisional' until approved, then 'active'. */
  datatype AccountStatus = Provisional | Active

  // ---------------------------------------------------------------------------
  // password hashes

  /** A salted password hash. The hash function itself is idealised: a hash
      matches exactly the password it was made from. */
  datatype PasswordHash = PasswordHash(salt: nat, digest: string)

  /** `check_password_hash`. */
  predicate Matches(h: PasswordHash, attempt: string)
  {
    h.digest == attempt
  }

  /** `generate_password_hash`, the salt being the random part. */
  function HashPassword(password: string, salt: nat): (h: PasswordHash)
    ensures forall attempt :: Matches(h, attempt) <==> attempt == password
  {
    PasswordHash(salt, password)
  }

  // ---------------------------------------------------------------------------
  // rows, requests and replies

  datatype User = User(
    fullName: string,
    email: string,
    passwordHash: PasswordHash,
    role: Role,
    status: AccountStatus,
    gender: Option<string>,
    country: Option<string>,
    company: Option<string>,
    jobTitle: Option<string>,
    scope: Option<string>)

  /** The JSON body of a registration; `data.get` gives `None` for a missing
      key. */
  datatype Registration = Registration(
    fullName: Option<string>,
    email: Option<string>,
    password: Option<string>,
    gender: Option<string>,
    company: Option<string>,
    job: Option<string>,
    country: Option<string>)

  /** Python truthiness of a string field: present and non-empty. */
  predicate Truthy(v: Option<string>)
  {
    v.Some? && v.value != ""
  }

  /** What login answers about a user: no password hash. */
  datatype Profile = Profile(id: int, fullName: string, email: string, scope: Option<string>, role: Role, status: AccountStatus)

  /** One row of the pending list. */
  datatype PendingRow = PendingRow(
    id: int,
    fullName: string,
    email: string,
    country: Option<string>,
    company: Option<string>,
    jobTitle: Option<string>,
    status: AccountStatus)

  /** A JSON reply body. `Crash` stands for the `str(e)` of an exception. */
  datatype Body = Message(text: string) | Error(text: string) | LoggedIn(user: Profile) | Crash

  // ---------------------------------------------------------------------------
  // the rows the handlers write

  /** The row a successful registration inserts: a provisional member whose
      scope is the country given. */
  function NewUser(req: Registration, salt: nat): (u: User)
    requires Truthy(req.fullName) && Truthy(req.email) && Truthy(req.password)
    ensures u.role == Member && u.status == Provisional && u.scope == req.country
    ensures u.fullName == req.fullName.value && u.email == req.email.value
    ensures u.gender == req.gender && u.country == req.country && u.company == req.company && u.jobTitle == req.job
    ensures forall attempt :: Matches(u.passwordHash, attempt) <==> attempt == req.password.value
  {
    User(req.fullName.value, req.email.value, HashPassword(req.password.value, salt),
      Member, Provisional, req.gender, req.country, req.company, req.job, req.country)
  }

  /** The row after approval: an active administrator with the given scope;
      everything else about the user is kept. */
  function Promoted(u: User, scope: Option<string>): (p: User)
    ensures p.status == Active && p.role == Admin && p.scope == scope
    ensures p.(status := u.status, role := u.role, scope := u.scope) == u
  {
    u.(status := Active, role := Admin, scope := scope)
  }

  function ProfileOf(id: int, u: User): Profile
  {
    Profile(id, u.fullName, u.email, u.scope, u.role, u.status)
  }

  function RowOf(id: int, u: User): PendingRow
  {
    PendingRow(id, u.fullName, u.email, u.country, u.company, u.jobTitle, u.status)
  }

  // ---------------------------------------------------------------------------
  // properties of the table

  /** No two rows share an email. */
  predicate UniqueEmails(users: map<int, User>)
  {
    forall a, b :: a in users && b in users && a != b ==> users[a].email != users[b].email
  }

  predicate EmailTaken(users: map<int, User>, email: string)
  {
    exists id :: id in users && users[id].email == email
  }

  /** The ids the pending list shows. */
  function PendingIds(users: map<int, User>): set<int>
  {
    set id | id in users && users[id].status == Provisional
  }

  /** Inserting a row with a fresh email keeps emails unique, and the new
      row is pending. */
  lemma InsertKeepsEmailsUnique(users: map<int, User>, id: int, u: User)
    requires UniqueEmails(users) && id !in users && !EmailTaken(users, u.email)
    requires u.status == Provisional
    ensures UniqueEmails(users[id := u])
    ensures PendingIds(users[id := u]) == PendingIds(users) + {id}
  {
    var after := users[id := u];
    forall a, b | a in after && b in after && a != b
      ensures after[a].email != after[b].email
    {
      if a == id {
        assert users[b].email != u.email;
      } else if b == id {
        assert users[a].email != u.email;
      }
    }
  }

  /** Approval keeps emails unique and takes the user off the pending list. */
  lemma PromoteKeepsEmailsUnique(users: map<int, User>, id: int, scope: Option<string>)
    requires UniqueEmails(users) && id in users
    ensures UniqueEmails(users[id := Promoted(users[id], scope)])
    ensures PendingIds(users[id := Promoted(users[id], scope)]) == PendingIds(users) - {id}
  {
    var after := users[id := Promoted(users[id], scope)];
    forall a | a in after
      ensures after[a].email == users[a].email
    {
      if a == id {
        assert after[a].email == Promoted(users[id], scope).(status := users[id].status, role := users[id].role, scope := users[id].scope).email;
      }
    }
  }

  /** Deleting a row keeps emails unique and takes it off the pending list. */
  lemma RemoveKeepsEmailsUnique(users: map<int, User>, id: int)
    requires UniqueEmails(users)
    ensures UniqueEmails(users - {id})
    ensures PendingIds(users - {id}) == PendingIds(users) - {id}
  {
  }

  /** With unique emails, an email names at most one row, so the row login
      reads is determined by the email. */
  lemma EmailNamesOneUser(users: map<int, User>, a: int, b: int)
    requires UniqueEmails(users) && a in users && b in users
    requires users[a].email == users[b].email
    ensures a == b
  {
  }

  // ---------------------------------------------------------------------------
  // the handlers

  class Users {
    var users: map<int, User>
    /** The next value of the `id` sequence. */
    var nextId: int

    ghost predicate Valid()
      reads this
    {
      && nextId >= 1
      && (forall id :: id in users ==> 1 <= id < nextId)
      && UniqueEmails(users)
    }

    constructor ()
      ensures users == map[] && nextId == 1 && Valid()
    {
      users, nextId := map[], 1;
    }

    /** `POST /api/register`: 400 without a name, email or password, 409 for
        an email already in use, else one new provisional row and 201. */
    method Register(req: Registration, salt: nat) returns (code: int, body: Body)
      requires Valid()
      modifies this
      ensures Valid()
      ensures !(Truthy(req.email) && Truthy(req.password) && Truthy(req.fullName)) ==>
        code == 400 && body == Error("Nom, Email et mot de passe requis") && users == old(users) && nextId == old(nextId)
      ensures Truthy(req.email) && Truthy(req.password) && Truthy(req.fullName) && EmailTaken(old(users), req.email.value) ==>
        code == 409 && body == Error("Cet email est déjà utilisé") && users == old(users) && nextId == old(nextId)
      ensures Truthy(req.email) && Truthy(req.password) && Truthy(req.fullName) && !EmailTaken(old(users), req.email.value) ==>
        && code == 201 && body == Message("Inscription réussie.")
        && old(nextId) !in old(users)
        && users == old(users)[old(nextId) := NewUser(req, salt)]
        && nextId == old(nextId) + 1
    {
      if !Truthy(req.email) || !Truthy(req.password) || !Truthy(req.fullName) {
        return 400, Error("Nom, Email et mot de passe requis");
      }
      var hashed := HashPassword(req.password.value, salt);
      if exists id :: id in users && users[id].email == req.email.value {
        return 409, Error("Cet email est déjà utilisé");
      }
      var row := User(req.fullName.value, req.email.value, hashed, Member, Provisional,
        req.gender, req.country, req.company, req.job, req.country);
      InsertKeepsEmailsUnique(users, nextId, row);
      users := users[nextId := row];
      nextId := nextId + 1;
      code, body := 201, Message("Inscription réussie.");
    }

    /** `POST /api/login`: the profile of the user with that email when the
        password matches; 401 otherwise. A request without a password for a
        known email makes the hash check raise, hence 500. */
    method Login(email: Option<string>, password: Option<string>) returns (code: int, body: Body)
      requires Valid()
      ensures code == 200 <==> (email.Some? && password.Some? &&
        exists id :: id in users && users[id].email == email.value && Matches(users[id].passwordHash, password.value))
      ensures code == 200 ==> exists id :: id in users && users[id].email == email.value && body == LoggedIn(ProfileOf(id, users[id]))
      ensures code == 500 <==> email.Some? && EmailTaken(users, email.value) && password.None?
      ensures code == 500 ==> body == Crash
      ensures code != 200 && code != 500 ==> code == 401 && body == Error("Identifiants incorrects")
    {
      if email.Some? && exists id :: id in users && users[id].email == email.value {
        var id :| id in users && users[id].email == email.value;
        if password.None? {
          return 500, Crash;
        }
        if Matches(users[id].passwordHash, password.value) {
          return 200, LoggedIn(ProfileOf(id, users[id]));
        }
        forall other | other in users && users[other].email == email.value
          ensures !Matches(users[other].passwordHash, password.value)
        {
          EmailNamesOneUser(users, id, other);
        }
      }
      code, body := 401, Error("Identifiants incorrects");
    }

    /** `GET /api/admin/pending-users`: one row per provisional user, in no
        particular order. */
    method PendingUsers() returns (rows: seq<PendingRow>)
      ensures forall r :: r in rows ==> r.id in PendingIds(users) && r == RowOf(r.id, users[r.id])
      ensures forall id :: id in PendingIds(users) ==> RowOf(id, users[id]) in rows
      ensures forall i, j :: 0 <= i < j < |rows| ==> rows[i].id != rows[j].id
    {
      rows := [];
      var remaining := users.Keys;
      while remaining != {}
        invariant remaining <= users.Keys
        invariant forall r :: r in rows ==> r.id in PendingIds(users) && r.id !in remaining && r == RowOf(r.id, users[r.id])
        invariant forall id :: id in PendingIds(users) && id !in remaining ==> RowOf(id, users[id]) in rows
        invariant forall i, j :: 0 <= i < j < |rows| ==> rows[i].id != rows[j].id
        decreases remaining
      {
        assert exists x :: x in remaining by {
          if forall x :: x !in remaining {
            assert false;
          }
        }
        var id :| id in remaining;
        if users[id].status == Provisional {
          rows := rows + [RowOf(id, users[id])];
        }
        remaining := remaining - {id};
      }
    }

    /** `POST /api/admin/approve-user`: an existing user becomes an active
        administrator with the given scope; an unknown id changes nothing.
        The answer is 200 either way. */
    method Approve(userId: Option<int>, scope: Option<string>) returns (code: int, body: Body)
      requires Valid()
      modifies this
      ensures Valid() && nextId == old(nextId)
      ensures code == 200 && body == Message("Utilisateur approuvé et promu Admin")
      ensures userId.Some? && userId.value in old(users) ==>
        users == old(users)[userId.value := Promoted(old(users)[userId.value], scope)]
      ensures !(userId.Some? && userId.value in old(users)) ==> users == old(users)
    {
      if userId.Some? && userId.value in users {
        var id := userId.value;
        PromoteKeepsEmailsUnique(users, id, scope);
        users := users[id := users[id].(status := Active, role := Admin, scope := scope)];
      }
      code, body := 200, Message("Utilisateur approuvé et promu Admin");
    }

    /** `POST /api/admin/reject-user`: the row with that id is deleted, if
        there is one. The answer is 200 either way. */
    method Reject(userId: Option<int>) returns (code: int, body: Body)
      requires Valid()
      modifies this
      ensures Valid() && nextId == old(nextId)
      ensures code == 200 && body == Message("Utilisateur supprimé définitivement")
      ensures users == if userId.Some? then old(users) - {userId.value} else old(users)
    {
      if userId.Some? {
        RemoveKeepsEmailsUnique(users, userId.value);
        users := users - {userId.value};
      }
      code, body := 200, Message("Utilisateur supprimé définitivement");
    }
  }
}
