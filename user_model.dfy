/**
 * The users collection: the `User` schema (a required, trimmed, lower-cased
 * email under a unique index and a required password), the pre-save hook
 * that replaces the plaintext password by its bcrypt hash, and
 * `comparePassword`.
 */
module UserModel {
  import opened Wrappers
  import Text
  import Bcrypt

  /** A document `_id` (the model's stand-in for a MongoDB ObjectId). */
  type Id = nat

  /** What the email setters leave: no whitespace at either end and no upper-case letter. */
  predicate IsNormalized(e: string) {
    && (e == [] || (!Text.IsSpace(e[0]) && !Text.IsSpace(e[|e| - 1])))
    && forall i :: 0 <= i < |e| ==> !('A' <= e[i] <= 'Z')
  }

  /** The email path's setters, `trim` then `lowercase`; they also run on query filters. */
  function NormalizeEmail(email: string): (r: string)
    ensures IsNormalized(r)
  {
    Text.ToLower(Text.Trim(email))
  }

  /** The normalised emails are exactly the fixed points of the setters. */
  lemma NormalizedIff(e: string)
    ensures IsNormalized(e) <==> NormalizeEmail(e) == e
  {
    if IsNormalized(e) {
      assert Text.TrimStart(e) == e;
      assert Text.TrimEnd(e) == e;
      assert Text.ToLower(e) == e;
    }
  }

  /** Normalising is idempotent, so a stored email is its own lookup key. */
  lemma NormalizeEmailIdempotent(email: string)
    ensures NormalizeEmail(NormalizeEmail(email)) == NormalizeEmail(email)
  {
    var t := Text.Trim(email);
    Text.TrimLowerCommute(t);
    Text.TrimIdempotent(email);
    Text.ToLowerIdempotent(t);
  }

  /** Case and surrounding blanks do not tell two emails apart: `" A@x.com"` is stored as `a@x.com`. */
  lemma EmailsCollideIgnoringCase(e: string, c: char)
    requires Text.IsSpace(c)
    ensures NormalizeEmail(Text.ToLower(e)) == NormalizeEmail(e)
    ensures NormalizeEmail([c] + e) == NormalizeEmail(e)
  {
    Text.TrimLowerCommute(e);
    Text.ToLowerIdempotent(Text.Trim(e));
    assert ([c] + e)[1..] == e;
  }

  /** A stored user: its normalised email and the bcrypt hash held in `password`. */
  datatype User = User(email: string, password: string)

  /** Why saving a user fails. */
  datatype SaveError =
    | Required(path: string)  // a required path is empty
    | HashFailed              // the pre-save hook threw "Error al generar el hash de la password."
    | DuplicateKey            // E11000 on the unique email index

  /** `user.comparePassword(candidate)`: bcrypt's comparison against the stored hash. */
  function ComparePassword(u: User, candidate: string): bool {
    Bcrypt.Compare(candidate, u.password)
  }

  /**
   * The pre-save hook as the source intends it: an unmodified password is
   * kept; a modified one is replaced by `hash(plaintext, genSalt(10))`; a
   * bcrypt failure (`salt == None`) makes the hook throw.
   */
  function HashStep(password: string, modified: bool, salt: Option<Bcrypt.Salt>): (r: Option<string>)
    ensures !modified ==> r == Some(password)
    ensures modified ==> (r.Some? <==> salt.Some?)
    ensures modified && salt.Some? ==> r == Some(Bcrypt.Hash(password, salt.value))
  {
    if !modified then Some(password)
    else if salt.None? then None
    else Some(Bcrypt.Hash(password, salt.value))
  }

  /**
   * The hook as written: the "not modified" branch calls `next()` without
   * returning, so the hashing below it runs on every save.
   */
  function HashStepAsWritten(password: string, modified: bool, salt: Option<Bcrypt.Salt>): (r: Option<string>)
    ensures r.Some? <==> salt.Some?
  {
    if salt.None? then None else Some(Bcrypt.Hash(password, salt.value))
  }

  /**
   * As written, re-saving a user whose password was not touched hashes the
   * stored hash again, after which the user's real password no longer matches.
   */
  lemma ResaveAsWrittenBreaksLogin(plain: string, s1: Bcrypt.Salt, s2: Bcrypt.Salt)
    ensures Bcrypt.Compare(plain, Bcrypt.Hash(plain, s1))
    ensures HashStepAsWritten(Bcrypt.Hash(plain, s1), false, Some(s2)).Some?
    ensures !Bcrypt.Compare(plain, HashStepAsWritten(Bcrypt.Hash(plain, s1), false, Some(s2)).value)
  {
    var h := Bcrypt.Hash(plain, s1);
    Bcrypt.CompareHash(plain, plain, s1);
    Bcrypt.HashIsNotPlain(plain, s1);
    Bcrypt.CompareHash(plain, h, s2);
  }

  /** With the early return, re-saving keeps the hash and the password keeps matching. */
  lemma ResaveKeepsLogin(plain: string, s1: Bcrypt.Salt, salt: Option<Bcrypt.Salt>)
    ensures HashStep(Bcrypt.Hash(plain, s1), false, salt) == Some(Bcrypt.Hash(plain, s1))
    ensures Bcrypt.Compare(plain, HashStep(Bcrypt.Hash(plain, s1), false, salt).value)
  {
    Bcrypt.CompareHash(plain, plain, s1);
  }

  /**
   * The collection: documents by `_id`, the unique index from email to `_id`,
   * and the next fresh `_id`.
   */
  datatype UserTable = UserTable(users: map<Id, User>, byEmail: map<string, Id>, nextId: Id)

  /** Stored emails are normalised and non-empty, and the index is exactly their inverse. */
  ghost predicate Invariant(t: UserTable) {
    && (forall id :: id in t.users ==> id < t.nextId && t.users[id].email != [] && IsNormalized(t.users[id].email))
    && (forall id :: id in t.users ==> t.users[id].email in t.byEmail && t.byEmail[t.users[id].email] == id)
    && (forall e :: e in t.byEmail ==> t.byEmail[e] in t.users && t.users[t.byEmail[e]].email == e)
  }

  /** At most one user per stored email. */
  lemma InvariantEmailsUnique(t: UserTable, i: Id, j: Id)
    requires Invariant(t) && i in t.users && j in t.users
    requires t.users[i].email == t.users[j].email
    ensures i == j
  {
    assert t.byEmail[t.users[i].email] == i;
  }

  const Empty: UserTable := UserTable(map[], map[], 0)

  lemma EmptyInvariant()
    ensures Invariant(Empty)
  {
  }

  /** `User.findOne({ email })`: the query value goes through the email setters first. */
  function ByEmail(t: UserTable, email: string): (r: Option<(Id, User)>)
    requires Invariant(t)
    ensures r.Some? <==> exists id :: id in t.users && t.users[id].email == NormalizeEmail(email)
    ensures r.Some? ==> r.value.0 in t.users && t.users[r.value.0] == r.value.1
    ensures r.Some? ==> r.value.1.email == NormalizeEmail(email)
  {
    var key := NormalizeEmail(email);
    if key in t.byEmail then Some((t.byEmail[key], t.users[t.byEmail[key]])) else None
  }

  /** `User.findById(id)`. */
  function ById(t: UserTable, id: Id): Option<User> {
    if id in t.users then Some(t.users[id]) else None
  }

  /**
   * `user.save()` of a new document holding `email` (already through its
   * setters) and a plaintext `password`: the `required` validators, then the
   * pre-save hook, then the unique index.
   */
  function Insert(t: UserTable, email: string, password: string, salt: Option<Bcrypt.Salt>): (r: Result<(UserTable, Id), SaveError>)
    requires Invariant(t) && IsNormalized(email)
    ensures r.Success? <==> email != [] && password != [] && salt.Some? && email !in t.byEmail
    ensures r.Success? ==> Invariant(r.value.0) && r.value.1 !in t.users
    ensures r.Success? ==> r.value.0.users == t.users[r.value.1 := User(email, Bcrypt.Hash(password, salt.value))]
  {
    if email == [] then Failure(Required("email"))
    else if password == [] then Failure(Required("password"))
    else match HashStep(password, true, salt)
      case None => Failure(HashFailed)
      case Some(hash) =>
        if email in t.byEmail then Failure(DuplicateKey)
        else Success((UserTable(t.users[t.nextId := User(email, hash)], t.byEmail[email := t.nextId], t.nextId + 1), t.nextId))
  }

  /** A user document in memory, as `new User({ email, password })` builds it. */
  class UserDocument {
    var email: string
    var password: string
    /** `this.isModified('password')`. */
    var passwordModified: bool

    ghost predicate Valid()
      reads this
    {
      IsNormalized(email)
    }

    /** The schema's setters run on construction; the password is new, hence modified. */
    constructor (email: string, password: string)
      ensures Valid()
      ensures this.email == NormalizeEmail(email) && this.password == password && passwordModified
    {
      NormalizeEmailIdempotent(email);
      this.email := NormalizeEmail(email);
      this.password := password;
      this.passwordModified := true;
    }

    /** The pre-save hook with the early return on an unmodified password. */
    method PreSave(salt: Option<Bcrypt.Salt>) returns (ok: bool)
      modifies this`password
      ensures ok == HashStep(old(password), passwordModified, salt).Some?
      ensures password == if ok then HashStep(old(password), passwordModified, salt).value else old(password)
    {
      if !passwordModified {
        return true;
      }
      if salt.None? {
        return false;
      }
      password := Bcrypt.Hash(password, salt.value);
      ok := true;
    }

    /** The pre-save hook as written: the hashing runs whether or not the password changed. */
    method PreSaveAsWritten(salt: Option<Bcrypt.Salt>) returns (ok: bool)
      modifies this`password
      ensures ok == HashStepAsWritten(old(password), passwordModified, salt).Some?
      ensures password == if ok then HashStepAsWritten(old(password), passwordModified, salt).value else old(password)
    {
      if salt.None? {
        return false;
      }
      password := Bcrypt.Hash(password, salt.value);
      ok := true;
    }
  }

  /** The collection as mutable state, with the Mongoose operations the controllers call. */
  class UserStore {
    var users: map<Id, User>
    var byEmail: map<string, Id>
    var nextId: Id

    function Table(): UserTable
      reads this
    {
      UserTable(users, byEmail, nextId)
    }

    ghost predicate Valid()
      reads this
    {
      Invariant(Table())
    }

    constructor ()
      ensures Valid() && Table() == Empty
    {
      users, byEmail, nextId := map[], map[], 0;
    }

    method FindByEmail(email: string) returns (r: Option<(Id, User)>)
      requires Valid()
      ensures r == ByEmail(Table(), email)
    {
      var key := NormalizeEmail(email);
      r := if key in byEmail then Some((byEmail[key], users[byEmail[key]])) else None;
    }

    method FindById(id: Id) returns (r: Option<User>)
      ensures r == ById(Table(), id)
    {
      r := if id in users then Some(users[id]) else None;
    }

    /** `user.save()` of a new document: validators, pre-save hook, unique index, insertion. */
    method Save(doc: UserDocument, salt: Option<Bcrypt.Salt>) returns (r: Result<Id, SaveError>)
      requires Valid() && doc.Valid() && doc.passwordModified
      modifies this, doc
      ensures Valid()
      ensures var o := Insert(old(Table()), old(doc.email), old(doc.password), salt);
        && r.Success? == o.Success?
        && (o.Success? ==> r.value == o.value.1 && Table() == o.value.0)
        && (o.Failure? ==> Table() == old(Table()))
    {
      var plain := doc.password;
      if doc.email == [] {
        return Failure(Required("email"));
      }
      if plain == [] {
        return Failure(Required("password"));
      }
      var hashed := doc.PreSave(salt);
      if !hashed {
        return Failure(HashFailed);
      }
      if doc.email in byEmail {
        return Failure(DuplicateKey);
      }
      var o := Insert(Table(), doc.email, plain, salt);
      assert o.Success? && doc.password == Bcrypt.Hash(plain, salt.value);
      r := Success(nextId);
      users, byEmail, nextId := o.value.0.users, o.value.0.byEmail, o.value.0.nextId;
      doc.passwordModified := false;
    }
  }
}
