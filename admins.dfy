/** Admin accounts (backend/controllers/adminController.js). The Admin
    schema (backend/models/Admin.js) is not part of this model: whether it
    accepts a document is the parameter `accepts`, its password hashing the
    parameter `hash`, `matchPassword` the parameter `matches` and
    `generateToken` the parameter `tokenOf`. Missing request fields and
    empty ones behave alike here, so both are "". */
module Admins {
  import opened Base

  type Hash = string

  datatype AdminDoc = AdminDoc(id: Id, name: string, email: string, password: Hash, role: string)

  function IdOf(a: AdminDoc): Id { a.id }

  function EmailOf(a: AdminDoc): string { a.email }

  /** A login or register answer: the admin without the password, and a token. */
  datatype AdminReply = AdminReply(id: Id, name: string, email: string, role: string, token: string)

  function Reply(a: AdminDoc, token: string): (r: AdminReply)
    ensures r.id == a.id && r.name == a.name && r.email == a.email && r.role == a.role && r.token == token
  {
    AdminReply(a.id, a.name, a.email, a.role, token)
  }

  // ---------------------------------------------------------------------------
  // authAdmin
  // ---------------------------------------------------------------------------

  const MISSING_CREDENTIALS := "Please provide email and password"
  const INVALID_LOGIN := "Invalid email or password"

  /** `email.toLowerCase().trim()`: the address the login looks up. */
  function LoginEmail(email: string): (r: string)
    ensures Trim(r) == r
    ensures |r| <= |email|
  {
    TrimIdempotent(Lower(email));
    Trim(Lower(email))
  }

  /** authAdmin: both fields present, then the same 401 for an unknown
      address and for a wrong password. */
  function AuthOutcome(docs: seq<AdminDoc>, email: string, password: string,
                       matches: (string, Hash) -> bool, tokenOf: Id -> string): (r: Outcome<AdminReply>)
    ensures !r.Unhandled?
    ensures r == Fail(400, MISSING_CREDENTIALS) <==> email == "" || password == ""
    ensures var i := KeyIndex(docs, EmailOf, LoginEmail(email));
      (r.Done? <==> email != "" && password != "" && i >= 0 && matches(password, docs[i].password))
      && (r == Fail(401, INVALID_LOGIN) <==> email != "" && password != "" && !r.Done?)
      && (r.Done? ==> r.value == Reply(docs[i], tokenOf(docs[i].id)) && r.value.email == LoginEmail(email))
  {
    if email == "" || password == "" then Fail(400, MISSING_CREDENTIALS)
    else
      var i := KeyIndex(docs, EmailOf, LoginEmail(email));
      if i >= 0 && matches(password, docs[i].password) then Done(Reply(docs[i], tokenOf(docs[i].id)))
      else Fail(401, INVALID_LOGIN)
  }

  /** An address stored with an upper-case letter (at position `m`) can never
      log in: the lookup only ever asks for a lower-cased address. */
  lemma MixedCaseEmailNeverLogsIn(docs: seq<AdminDoc>, email: string, password: string,
                                  matches: (string, Hash) -> bool, tokenOf: Id -> string, k: nat, m: nat)
    requires KeysUnique(docs, IdOf) && k < |docs| && m < |docs[k].email| && 'A' <= docs[k].email[m] <= 'Z'
    ensures var r := AuthOutcome(docs, email, password, matches, tokenOf);
      r.Done? ==> r.value.id != docs[k].id
  {
    var r := AuthOutcome(docs, email, password, matches, tokenOf);
    if r.Done? {
      var i := KeyIndex(docs, EmailOf, LoginEmail(email));
      LoginEmailNoUpper(email);
      assert i != k;
    }
  }

  /** The login form of an address has no upper-case letter A to Z. */
  lemma LoginEmailNoUpper(email: string)
    ensures forall k :: 0 <= k < |LoginEmail(email)| ==> !('A' <= LoginEmail(email)[k] <= 'Z')
  {
    var l := Lower(email);
    LowerAt(email);
    assert forall j :: 0 <= j < |l| ==> !('A' <= l[j] <= 'Z');
    forall k | 0 <= k < |Trim(l)|
      ensures !('A' <= Trim(l)[k] <= 'Z')
    {
      TrimChar(l, k);
    }
  }

  // ---------------------------------------------------------------------------
  // registerAdmin
  // ---------------------------------------------------------------------------

  const ALREADY_EXISTS := "Admin already exists"
  const INVALID_DATA := "Invalid admin data"
  const REGISTER_ERROR := "Server error during registration"

  /** registerAdmin: an admin whose address is exactly the one sent exists
      (400), else the schema decides (500 when it refuses), else the new
      admin and a token (201). The address is compared and stored as sent,
      not lower-cased and trimmed as the login does (the schema is taken to
      have no setter on `email`). */
  function RegisterOutcome(docs: seq<AdminDoc>, name: string, email: string, password: string, id: Id, role: string,
                           hash: string -> Hash, accepts: AdminDoc -> bool, tokenOf: Id -> string)
    : (r: Outcome<AdminDoc>)
    ensures !r.Unhandled?
    ensures r == Fail(400, ALREADY_EXISTS) <==> email in KeySet(docs, EmailOf)
    ensures r.Done? <==> email !in KeySet(docs, EmailOf) && accepts(AdminDoc(id, name, email, hash(password), role))
    ensures r.Done? ==> r.value == AdminDoc(id, name, email, hash(password), role)
    ensures r.Fail? && r.code != 400 ==> r == Fail(500, REGISTER_ERROR)
    ensures r != Fail(400, INVALID_DATA)
  {
    var a := AdminDoc(id, name, email, hash(password), role);
    if KeyIndex(docs, EmailOf, email) >= 0 then Fail(400, ALREADY_EXISTS)
    else if !accepts(a) then Fail(500, REGISTER_ERROR)
    else Done(a)
  }

  /** The existence check is not normalised: an address differing from a
      registered one only in case passes it. */
  lemma RegisterCaseVariant(hash: string -> Hash, accepts: AdminDoc -> bool, tokenOf: Id -> string)
    ensures RegisterOutcome([AdminDoc(1, "Warden", "a@hostel.in", "h", "admin")], "Warden", "A@hostel.in", "pw", 2, "admin",
                            hash, accepts, tokenOf) != Fail(400, ALREADY_EXISTS)
  {
    var docs := [AdminDoc(1, "Warden", "a@hostel.in", "h", "admin")];
    assert "A@hostel.in" != "a@hostel.in" by { assert "A@hostel.in"[0] != "a@hostel.in"[0]; }
    assert forall j :: 0 <= j < |docs| ==> EmailOf(docs[j]) == "a@hostel.in";
  }

  // ---------------------------------------------------------------------------
  // updateProfile and changePassword
  // ---------------------------------------------------------------------------

  const NOT_FOUND := "Admin not found"
  const PROFILE_ERROR := "Server error updating profile"
  const WRONG_PASSWORD := "Current password is incorrect"
  const PASSWORD_UPDATED := "Password updated successfully"
  const PASSWORD_ERROR := "Server error changing password"

  /** updateProfile's assignments: a name or address sent empty keeps the
      current one. */
  function Profiled(a: AdminDoc, name: string, email: string): (r: AdminDoc)
    ensures r.id == a.id && r.password == a.password && r.role == a.role
    ensures r.name == (if name != "" then name else a.name)
    ensures r.email == (if email != "" then email else a.email)
  {
    a.(name := if name != "" then name else a.name, email := if email != "" then email else a.email)
  }

  /** What updateProfile answers: the saved admin and the token of the
      request's own header (None when the header has no second field, which
      the JSON reply then leaves out). */
  datatype ProfileReply = ProfileReply(id: Id, name: string, email: string, role: string, token: Option<string>)

  /** updateProfile: 404, or the saved admin. */
  function ProfileOutcome(docs: seq<AdminDoc>, aid: Id, name: string, email: string, header: string,
                          accepts: AdminDoc -> bool): (r: Outcome<ProfileReply>)
    ensures !r.Unhandled?
    ensures r == Fail(404, NOT_FOUND) <==> aid !in KeySet(docs, IdOf)
    ensures var i := KeyIndex(docs, IdOf, aid);
      (r.Done? <==> i >= 0 && accepts(Profiled(docs[i], name, email)))
      && (r.Done? ==> var a := Profiled(docs[i], name, email);
                      r.value == ProfileReply(a.id, a.name, a.email, a.role, SecondField(header)))
    ensures r.Fail? && r.code != 404 ==> r == Fail(500, PROFILE_ERROR)
  {
    var i := KeyIndex(docs, IdOf, aid);
    if i < 0 then Fail(404, NOT_FOUND)
    else
      var a := Profiled(docs[i], name, email);
      if !accepts(a) then Fail(500, PROFILE_ERROR)
      else Done(ProfileReply(a.id, a.name, a.email, a.role, SecondField(header)))
  }

  /** changePassword: 404, 400 when the current password does not match,
      else the hash of the new password is saved. */
  function PasswordOutcome(docs: seq<AdminDoc>, aid: Id, current: string, next: string,
                           matches: (string, Hash) -> bool, hash: string -> Hash, accepts: AdminDoc -> bool)
    : (r: Outcome<AdminDoc>)
    ensures !r.Unhandled?
    ensures r == Fail(404, NOT_FOUND) <==> aid !in KeySet(docs, IdOf)
    ensures var i := KeyIndex(docs, IdOf, aid);
      (r == Fail(400, WRONG_PASSWORD) <==> i >= 0 && !matches(current, docs[i].password))
      && (r.Done? <==> i >= 0 && matches(current, docs[i].password) && accepts(docs[i].(password := hash(next))))
      && (r.Done? ==> r.value == docs[i].(password := hash(next)))
    ensures r.Fail? && r.code == 500 ==> r.message == PASSWORD_ERROR
  {
    var i := KeyIndex(docs, IdOf, aid);
    if i < 0 then Fail(404, NOT_FOUND)
    else if !matches(current, docs[i].password) then Fail(400, WRONG_PASSWORD)
    else
      var a := docs[i].(password := hash(next));
      if accepts(a) then Done(a) else Fail(500, PASSWORD_ERROR)
  }

  /** After a password change, an admin typing an address whose login form
      is the stored one logs in with the new password (when the hash check
      accepts its own hashes), and no longer with the old one when it is
      not accepted by the new hash. */
  lemma ChangedPasswordLogsIn(docs: seq<AdminDoc>, i: nat, sent: string, current: string, next: string,
                              matches: (string, Hash) -> bool, hash: string -> Hash, accepts: AdminDoc -> bool,
                              tokenOf: Id -> string)
    requires KeysUnique(docs, IdOf) && KeysUnique(docs, EmailOf) && i < |docs|
    requires PasswordOutcome(docs, docs[i].id, current, next, matches, hash, accepts).Done?
    requires next != "" && matches(next, hash(next)) && !matches(current, hash(next))
    requires sent != "" && docs[i].email == LoginEmail(sent)
    ensures var d := docs[i := PasswordOutcome(docs, docs[i].id, current, next, matches, hash, accepts).value];
      AuthOutcome(d, sent, next, matches, tokenOf).Done?
      && (current != "" ==> AuthOutcome(d, sent, current, matches, tokenOf) == Fail(401, INVALID_LOGIN))
  {
    KeyIndexUnique(docs, IdOf, i);
    var a := PasswordOutcome(docs, docs[i].id, current, next, matches, hash, accepts).value;
    assert a == docs[i].(password := hash(next));
    ReplaceKeysUnique(docs, EmailOf, i, a);
    LoginAt(docs[i := a], i, sent, next, matches, tokenOf);
    if current != "" {
      LoginAt(docs[i := a], i, sent, current, matches, tokenOf);
    }
  }

  /** With unique addresses, typing an address whose login form is admin
      `i`'s logs in exactly when the password matches that admin's. */
  lemma LoginAt(docs: seq<AdminDoc>, i: nat, sent: string, password: string, matches: (string, Hash) -> bool,
                tokenOf: Id -> string)
    requires KeysUnique(docs, EmailOf) && i < |docs| && sent != "" && password != ""
    requires docs[i].email == LoginEmail(sent)
    ensures AuthOutcome(docs, sent, password, matches, tokenOf).Done? <==> matches(password, docs[i].password)
    ensures !matches(password, docs[i].password) ==>
      AuthOutcome(docs, sent, password, matches, tokenOf) == Fail(401, INVALID_LOGIN)
  {
    KeyIndexUnique(docs, EmailOf, i);
  }

  /** The Admin collection. */
  class AdminStore {
    var docs: seq<AdminDoc>

    ghost predicate Valid()
      reads this
    {
      KeysUnique(docs, IdOf)
    }

    constructor ()
      ensures Valid() && docs == []
    {
      docs := [];
    }

    /** registerAdmin; `id` is the new document's fresh id. */
    method Register(name: string, email: string, password: string, id: Id, role: string,
                    hash: string -> Hash, accepts: AdminDoc -> bool, tokenOf: Id -> string)
      returns (out: Outcome<AdminReply>)
      requires Valid() && id !in KeySet(docs, IdOf)
      modifies this
      ensures Valid()
      ensures var r := RegisterOutcome(old(docs), name, email, password, id, role, hash, accepts, tokenOf);
        (r.Done? ==> out == Done(Reply(r.value, tokenOf(id))) && docs == old(docs) + [r.value])
        && (r.Fail? ==> out == Fail(r.code, r.message) && docs == old(docs))
    {
      var r := RegisterOutcome(docs, name, email, password, id, role, hash, accepts, tokenOf);
      match r
      case Done(a) =>
        AppendKeysUnique(docs, IdOf, a);
        docs := docs + [a];
        out := Done(Reply(a, tokenOf(id)));
      case Fail(code, message) =>
        out := Fail(code, message);
      case Unhandled =>
        out := Unhandled;
    }

    /** updateProfile for the signed-in admin `aid`. */
    method UpdateProfile(aid: Id, name: string, email: string, header: string, accepts: AdminDoc -> bool)
      returns (out: Outcome<ProfileReply>)
      requires Valid()
      modifies this
      ensures Valid()
      ensures out == ProfileOutcome(old(docs), aid, name, email, header, accepts)
      ensures var i := KeyIndex(old(docs), IdOf, aid);
        if i >= 0 && accepts(Profiled(old(docs)[i], name, email))
        then docs == old(docs)[i := Profiled(old(docs)[i], name, email)]
        else docs == old(docs)
    {
      out := ProfileOutcome(docs, aid, name, email, header, accepts);
      var i := KeyIndex(docs, IdOf, aid);
      if i >= 0 && accepts(Profiled(docs[i], name, email)) {
        var a := Profiled(docs[i], name, email);
        ReplaceKeysUnique(docs, IdOf, i, a);
        docs := docs[i := a];
      }
    }

    /** changePassword for the signed-in admin `aid`. */
    method ChangePassword(aid: Id, current: string, next: string,
                          matches: (string, Hash) -> bool, hash: string -> Hash, accepts: AdminDoc -> bool)
      returns (out: Outcome<string>)
      requires Valid()
      modifies this
      ensures Valid()
      ensures var r := PasswordOutcome(old(docs), aid, current, next, matches, hash, accepts);
        (r.Done? ==> out == Done(PASSWORD_UPDATED) && docs == old(docs)[KeyIndex(old(docs), IdOf, aid) := r.value])
        && (r.Fail? ==> out == Fail(r.code, r.message) && docs == old(docs))
    {
      var r := PasswordOutcome(docs, aid, current, next, matches, hash, accepts);
      match r
      case Done(a) =>
        var i := KeyIndex(docs, IdOf, aid);
        ReplaceKeysUnique(docs, IdOf, i, a);
        docs := docs[i := a];
        out := Done(PASSWORD_UPDATED);
      case Fail(code, message) =>
        out := Fail(code, message);
      case Unhandled =>
        out := Unhandled;
    }
  }
}
