/** The guard in front of the student routes
    (backend/middleware/studentAuthMiddleware.js): a bearer token, verified,
    naming an existing and active student. `jwt.verify` is a library call;
    the model takes it as the parameter `verify`, which yields the id the
    token was signed for, or None when the token does not verify (any
    exception it throws). */
module StudentAuth {
  import opened Base
  import opened Students

  /** What the middleware does with the request: forward it with
      `req.student` set, or answer 401 with a message. */
  datatype Decision = Next(student: PublicStudent) | Reject(message: string)

  const NO_TOKEN := "Not authorized — no token"
  const INVALID_TOKEN := "Not authorized — invalid token"
  const NO_STUDENT := "Student not found"
  const ACCOUNT_INACTIVE := "Your account is inactive"

  /** The header's scheme test: present and starting with "Bearer". */
  predicate BearerHeader(header: Option<string>)
  {
    header.Some? && HasPrefix(header.value, "Bearer")
  }

  /** studentProtect. */
  function Protect(docs: seq<StudentDoc>, header: Option<string>, verify: string -> Option<Id>): (d: Decision)
    ensures d == Reject(NO_TOKEN) <==> !BearerHeader(header)
    ensures BearerHeader(header) ==>
      var token := SecondField(header.value);
      (d == Reject(INVALID_TOKEN) <==> token.None? || verify(token.value).None?)
    ensures BearerHeader(header) && SecondField(header.value).Some? && verify(SecondField(header.value).value).Some? ==>
      var i := KeyIndex(docs, IdOf, verify(SecondField(header.value).value).value);
      (d == Reject(NO_STUDENT) <==> i < 0)
      && (d == Reject(ACCOUNT_INACTIVE) <==> i >= 0 && docs[i].status == Inactive)
    ensures d.Next? <==>
      BearerHeader(header) && SecondField(header.value).Some?
      && verify(SecondField(header.value).value).Some?
      && var i := KeyIndex(docs, IdOf, verify(SecondField(header.value).value).value);
         i >= 0 && docs[i].status == Active
    ensures d.Next? ==>
      var sid := verify(SecondField(header.value).value).value;
      d.student == Public(docs[KeyIndex(docs, IdOf, sid)]) && d.student.id == sid && d.student.status == Active
  {
    if !BearerHeader(header) then Reject(NO_TOKEN)
    else
      match SecondField(header.value)
      case None => Reject(INVALID_TOKEN)
      case Some(token) =>
        match verify(token)
        case None => Reject(INVALID_TOKEN)
        case Some(sid) =>
          var i := KeyIndex(docs, IdOf, sid);
          if i < 0 then Reject(NO_STUDENT)
          else if docs[i].status == Inactive then Reject(ACCOUNT_INACTIVE)
          else Next(Public(docs[i]))
  }

  /** A student who logged in and sends the token back as
      `Authorization: Bearer <token>` passes the guard, as long as the
      token verifies to the id it was issued for, the token has no space
      in it, and the student is still there and active. */
  lemma LoginTokenPasses(docs: seq<StudentDoc>, body: LoginBody, matches: (string, Hash) -> bool,
                         tokenOf: Id -> string, verify: string -> Option<Id>)
    requires KeysUnique(docs, IdOf)
    requires LoginOutcome(docs, body, matches, tokenOf).Done?
    requires var reply := LoginOutcome(docs, body, matches, tokenOf).value;
      ' ' !in reply.token && verify(reply.token) == Some(reply.id)
    ensures var reply := LoginOutcome(docs, body, matches, tokenOf).value;
      Protect(docs, Some("Bearer " + reply.token), verify) == Next(Public(docs[KeyIndex(docs, IdOf, reply.id)]))
  {
    var reply := LoginOutcome(docs, body, matches, tokenOf).value;
    var j := KeyIndex(docs, RollOf, Trim(body.rollNo));
    ActiveBearerPasses(docs, reply.token, verify, j);
  }

  /** A bearer token without a space that verifies to an active student's id
      lets the request through with that student. */
  lemma ActiveBearerPasses(docs: seq<StudentDoc>, token: string, verify: string -> Option<Id>, k: nat)
    requires KeysUnique(docs, IdOf) && k < |docs| && docs[k].status == Active
    requires ' ' !in token && verify(token) == Some(docs[k].id)
    ensures KeyIndex(docs, IdOf, docs[k].id) == k
    ensures Protect(docs, Some("Bearer " + token), verify) == Next(Public(docs[k]))
  {
    var header := Some("Bearer " + token);
    BearerField(token);
    assert BearerHeader(header);
    KeyIndexUnique(docs, IdOf, k);
  }

  /** Deactivating a student shuts the door on tokens issued before: the
      guard looks the student up on every request. */
  lemma InactiveRejectedWithValidToken(docs: seq<StudentDoc>, header: Option<string>, verify: string -> Option<Id>, k: nat)
    requires KeysUnique(docs, IdOf) && k < |docs| && docs[k].status == Inactive
    requires BearerHeader(header) && SecondField(header.value).Some?
    requires verify(SecondField(header.value).value) == Some(docs[k].id)
    ensures Protect(docs, header, verify) == Reject(ACCOUNT_INACTIVE)
  {
    KeyIndexUnique(docs, IdOf, k);
  }
}
