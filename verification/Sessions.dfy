/** The session table, over whole runs. */
module Sessions {
  import opened Wrappers
  import opened Base64
  import opened Tokens

  type Values = map<Bytes, Bytes>

  /** The key "id". */
  const ID: Bytes := [0x69, 0x64]

  datatype Session = Session(id: Bytes, values: Values)

  /** What the JSON parser makes of a text: nothing, an object of strings, or anything else with the
      string found under "id", if there is one. */
  datatype Json = Null | Strings(values: Values) | Mixed(id: Option<Bytes>)

  /** The JSON library, as a printer and a parser. */
  datatype Codec = Codec(dump: Values -> Bytes, parse: Bytes -> Json)

  ghost predicate Inverse(c: Codec) {
    forall m :: c.dump(m) != [] && c.parse(c.dump(m)) == Strings(m)
  }

  /** The object `Session::toString` prints: the id, then the values, which may overwrite it. */
  function ObjectOf(s: Session): Values { map[ID := s.id] + s.values }

  function ToString(c: Codec, s: Session): Bytes { c.dump(ObjectOf(s)) }

  type Table = map<Bytes, Session>

  /** What a cookie says before its signature is looked at. */
  datatype Claim = Throws | NoId | Claims(id: Bytes, values: Option<Values>)

  /** `JSONfromJWT` and `std::string id = json["id"]`: a missing or foreign id throws; an empty id is
      no id. */
  function ReadClaim(c: Codec, cookie: Bytes): Claim {
    match OpenPayload(cookie)
    case Threw => Throws
    case NoText => Throws
    case Text(text) =>
      match c.parse(text)
      case Null => Throws
      case Strings(m) => if ID !in m then Throws else if m[ID] == [] then NoId else Claims(m[ID], Some(m))
      case Mixed(None) => Throws
      case Mixed(Some(id)) => if id == [] then NoId else Claims(id, None)
  }

  /** The table after a call, and the key of the session it returns; `None` is an exception. */
  datatype Step = Step(table: Table, key: Option<Bytes>)

  function NewSession(t: Table, uuid: Bytes): Step {
    Step(t[uuid := Session(uuid, map[])], Some(uuid))
  }

  /** `validateSessionCookie`; `uuid` is the identifier a new session would get. */
  function Validate(g: Signer, c: Codec, t: Table, cookie: Bytes, uuid: Bytes): Step {
    match ReadClaim(c, cookie)
    case Throws => Step(t, None)
    case NoId => NewSession(t, uuid)
    case Claims(id, values) =>
      if !VerifyJWT(g, cookie) then NewSession(t - {id}, uuid)
      else if id in t then Step(t, Some(id))
      else if values.None? then Step(t, None)
      else Step(t[id := Session(id, values.value)], Some(id))
  }

  /** `generateJWT`: a key that is not in the table is inserted with a session of its own id. */
  function Issue(g: Signer, c: Codec, t: Table, id: Bytes, uuid: Bytes): (Table, Bytes) {
    var t' := if id in t then t else t[id := Session(uuid, map[])];
    (t', GenerateJWT(g, ToString(c, t'[id])))
  }

  // ---- The invariant

  /** A session whose own values do not contradict its id. */
  ghost predicate Proper(s: Session) {
    s.id != [] && (ID in s.values ==> s.values[ID] == s.id)
  }

  /** Every key is the id of its session. */
  ghost predicate KeysAreIds(t: Table) {
    forall k :: k in t ==> t[k].id == k && Proper(t[k])
  }

  /** Storing a session keeps the invariant exactly when the session is proper and under its own id. */
  lemma StoringKeepsKeys(t: Table, k: Bytes, s: Session)
    requires KeysAreIds(t)
    ensures KeysAreIds(t[k := s]) <==> s.id == k && Proper(s)
  {
    assert t[k := s][k] == s;
  }

  /** Validation only ever adds proper sessions: the one of the cookie, or a new one. */
  lemma ValidateKeepsKeys(g: Signer, c: Codec, t: Table, cookie: Bytes, uuid: Bytes)
    requires KeysAreIds(t) && uuid != []
    ensures KeysAreIds(Validate(g, c, t, cookie, uuid).table)
  {
  }

  /** Issuing a token keeps keys and ids together exactly when the session is stored, or when the
      fresh identifier happens to be the key. */
  lemma IssueKeepsKeysExactly(g: Signer, c: Codec, t: Table, id: Bytes, uuid: Bytes)
    requires KeysAreIds(t) && uuid != []
    ensures KeysAreIds(Issue(g, c, t, id, uuid).0) <==> id in t || id == uuid
  {
    if id !in t { StoringKeepsKeys(t, id, Session(uuid, map[])); }
  }

  // ---- The class

  class SessionsManager {
    const signer: Signer
    const codec: Codec
    var sessions: Table

    ghost predicate Keyed()
      reads this
    {
      KeysAreIds(sessions)
    }

    constructor (signer: Signer, codec: Codec)
      ensures this.signer == signer && this.codec == codec && sessions == map[] && Keyed()
    {
      this.signer, this.codec, sessions := signer, codec, map[];
    }

    method GenerateNewSession(uuid: Bytes) returns (key: Bytes)
      modifies this`sessions
      ensures Step(sessions, Some(key)) == NewSession(old(sessions), uuid)
      ensures old(Keyed()) ==> (Keyed() <==> uuid != [])
    {
      if Keyed() { StoringKeepsKeys(sessions, uuid, Session(uuid, map[])); }
      sessions := sessions[uuid := Session(uuid, map[])];
      return uuid;
    }

    method UpdateSession(session: Session)
      modifies this`sessions
      ensures sessions == old(sessions)[session.id := session]
      ensures old(Keyed()) ==> (Keyed() <==> Proper(session))
    {
      if Keyed() { StoringKeepsKeys(sessions, session.id, session); }
      sessions := sessions[session.id := session];
    }

    method ValidateSessionCookie(cookie: Bytes, uuid: Bytes) returns (key: Option<Bytes>)
      modifies this`sessions
      ensures Step(sessions, key) == Validate(signer, codec, old(sessions), cookie, uuid)
      ensures old(Keyed()) && uuid != [] ==> Keyed()
    {
      if uuid != [] && Keyed() { ValidateKeepsKeys(signer, codec, sessions, cookie, uuid); }
      var claim := ReadClaim(codec, cookie);
      if claim.Throws? { return None; }
      if claim.NoId? {
        var k := GenerateNewSession(uuid);
        return Some(k);
      }
      var id := claim.id;
      if VerifyJWT(signer, cookie) {
        if id in sessions { return Some(id); }
        if claim.values.None? { return None; }
        sessions := sessions[id := Session(id, claim.values.value)];
        return Some(id);
      }
      sessions := sessions - {id};
      var k := GenerateNewSession(uuid);
      return Some(k);
    }

    method Erase(id: Bytes)
      modifies this`sessions
      ensures sessions == old(sessions) - {id}
      ensures old(Keyed()) ==> Keyed()
    {
      sessions := sessions - {id};
    }

    method GenerateJWT(id: Bytes, uuid: Bytes) returns (token: Bytes)
      modifies this`sessions
      ensures (sessions, token) == Issue(signer, codec, old(sessions), id, uuid)
      ensures old(Keyed()) && uuid != [] ==> (Keyed() <==> id in old(sessions) || id == uuid)
    {
      if Keyed() && uuid != [] { IssueKeepsKeysExactly(signer, codec, sessions, id, uuid); }
      if id !in sessions { sessions := sessions[id := Session(uuid, map[])]; }
      token := Tokens.GenerateJWT(signer, ToString(codec, sessions[id]));
    }
  }

  // ---- Runs

  /** What a handler does to its copy of the session: `addValue` does not replace a value. */
  datatype Edit = Add(key: Bytes, value: Bytes) | Modify(key: Bytes, value: Bytes) | Remove(key: Bytes)

  function EditOne(s: Session, edit: Edit): Session {
    match edit
    case Add(key, value) => if key in s.values then s else s.(values := s.values[key := value])
    case Modify(key, value) => s.(values := s.values[key := value])
    case Remove(key) => s.(values := s.values - {key})
  }

  function Edited(s: Session, edits: seq<Edit>): Session
    decreases |edits|
  {
    if edits == [] then s else Edited(EditOne(s, edits[0]), edits[1..])
  }

  /** No value is written under "id". */
  ghost predicate SparesId(edits: seq<Edit>) {
    forall i :: 0 <= i < |edits| ==> edits[i].Remove? || edits[i].key != ID
  }

  /** Handlers that do not write under "id" leave a proper session of the same id. */
  lemma {:induction false} EditsKeepProper(s: Session, edits: seq<Edit>)
    requires Proper(s) && SparesId(edits)
    ensures Proper(Edited(s, edits)) && Edited(s, edits).id == s.id
    decreases |edits|
  {
    if edits != [] {
      EditsKeepProper(EditOne(s, edits[0]), edits[1..]);
    }
  }

  /** The calls of a run. `Update` is what a request ends with: some copy of a session, perhaps taken
      long before, with what the handler wrote. */
  datatype Op =
    | New(uuid: Bytes)
    | Update(copy: Session, edits: seq<Edit>)
    | Check(cookie: Bytes, uuid: Bytes)
    | Sign(id: Bytes, uuid: Bytes)
    | Destroy(id: Bytes)

  /** Identifiers are never empty, handlers leave "id" alone, and tokens are issued for stored
      sessions. */
  ghost predicate Allowed(t: Table, op: Op) {
    match op
    case New(uuid) => uuid != []
    case Update(s, edits) => Proper(s) && SparesId(edits)
    case Check(_, uuid) => uuid != []
    case Sign(id, _) => id in t
    case Destroy(_) => true
  }

  function Apply(g: Signer, c: Codec, t: Table, op: Op): Table {
    match op
    case New(uuid) => NewSession(t, uuid).table
    case Update(s, edits) => var s' := Edited(s, edits); t[s'.id := s']
    case Check(cookie, uuid) => Validate(g, c, t, cookie, uuid).table
    case Sign(id, uuid) => Issue(g, c, t, id, uuid).0
    case Destroy(id) => t - {id}
  }

  function Run(g: Signer, c: Codec, t: Table, ops: seq<Op>): Table
    decreases |ops|
  {
    if ops == [] then t else Run(g, c, Apply(g, c, t, ops[0]), ops[1..])
  }

  ghost predicate AllowedRun(g: Signer, c: Codec, t: Table, ops: seq<Op>)
    decreases |ops|
  {
    ops == [] || (Allowed(t, ops[0]) && AllowedRun(g, c, Apply(g, c, t, ops[0]), ops[1..]))
  }

  lemma {:induction false} RunKeepsKeys(g: Signer, c: Codec, t: Table, ops: seq<Op>)
    requires KeysAreIds(t) && AllowedRun(g, c, t, ops)
    ensures KeysAreIds(Run(g, c, t, ops))
    decreases |ops|
  {
    if ops != [] {
      StepKeepsKeys(g, c, t, ops[0]);
      RunKeepsKeys(g, c, Apply(g, c, t, ops[0]), ops[1..]);
    }
  }

  lemma StepKeepsKeys(g: Signer, c: Codec, t: Table, op: Op)
    requires KeysAreIds(t) && Allowed(t, op)
    ensures KeysAreIds(Apply(g, c, t, op))
  {
    if op.Check? { ValidateKeepsKeys(g, c, t, op.cookie, op.uuid); }
    if op.Update? { EditsKeepProper(op.copy, op.edits); }
  }

  /** What a token issued for a proper session claims. */
  lemma TokenClaims(g: Signer, c: Codec, s: Session)
    requires Proper(s) && DigestNotEmpty(g) && Inverse(c)
    ensures var token := GenerateJWT(g, ToString(c, s));
            VerifyJWT(g, token) && ReadClaim(c, token) == Claims(s.id, Some(ObjectOf(s)))
  {
    var m := ObjectOf(s);
    assert c.dump(m) != [] && c.parse(c.dump(m)) == Strings(m);
    OpensToData(g, c.dump(m));
    TokenRoundTrip(g, c.dump(m));
  }

  /** A cookie issued for a stored session validates to a session of the same id for ever after,
      whatever calls come between: to the stored one if it is still there, and otherwise to one
      restored from the cookie. */
  lemma CookieStaysValid(g: Signer, c: Codec, t: Table, id: Bytes, ops: seq<Op>, uuid: Bytes, uuid': Bytes)
    requires DigestNotEmpty(g) && Inverse(c)
    requires KeysAreIds(t) && id in t && uuid != []
    requires AllowedRun(g, c, t, ops)
    ensures var cookie := Issue(g, c, t, id, uuid').1;
            var now := Run(g, c, t, ops);
            var step := Validate(g, c, now, cookie, uuid);
            && step.key == Some(id) && id in step.table && step.table[id].id == id
            && (if id in now then step.table == now
                else step.table == now[id := Session(id, ObjectOf(t[id]))])
            && KeysAreIds(step.table)
  {
    TokenClaims(g, c, t[id]);
    RunKeepsKeys(g, c, t, ops);
    ClaimIsHonoured(g, c, Run(g, c, t, ops), GenerateJWT(g, ToString(c, t[id])), uuid, id, ObjectOf(t[id]));
  }

  /** A verified cookie gives the session it claims: the stored one, or one restored from it. */
  lemma ClaimIsHonoured(g: Signer, c: Codec, t: Table, cookie: Bytes, uuid: Bytes, id: Bytes, values: Values)
    requires KeysAreIds(t) && uuid != []
    requires VerifyJWT(g, cookie) && ReadClaim(c, cookie) == Claims(id, Some(values))
    ensures Validate(g, c, t, cookie, uuid)
         == Step(if id in t then t else t[id := Session(id, values)], Some(id))
    ensures KeysAreIds(Validate(g, c, t, cookie, uuid).table)
  {
    ValidateKeepsKeys(g, c, t, cookie, uuid);
  }

  /** A call that cannot touch the session `id`: it updates another session, makes one under another
      identifier, or checks a cookie that verifies or claims another id. */
  ghost predicate LeavesAlone(g: Signer, c: Codec, op: Op, id: Bytes) {
    match op
    case New(uuid) => uuid != id
    case Update(s, edits) => Edited(s, edits).id != id
    case Check(cookie, uuid) =>
      uuid != id && (VerifyJWT(g, cookie) || !ReadClaim(c, cookie).Claims? || ReadClaim(c, cookie).id != id)
    case Sign(_, _) => true
    case Destroy(id') => id' != id
  }

  /** A stored session is found unchanged after any run of calls that leave it alone. */
  lemma {:induction false} SessionSurvives(g: Signer, c: Codec, t: Table, id: Bytes, ops: seq<Op>)
    requires id in t && forall k :: 0 <= k < |ops| ==> LeavesAlone(g, c, ops[k], id)
    ensures id in Run(g, c, t, ops) && Run(g, c, t, ops)[id] == t[id]
    decreases |ops|
  {
    if ops != [] {
      StepLeavesAlone(g, c, t, ops[0], id);
      SessionSurvives(g, c, Apply(g, c, t, ops[0]), id, ops[1..]);
    }
  }

  lemma StepLeavesAlone(g: Signer, c: Codec, t: Table, op: Op, id: Bytes)
    requires id in t && LeavesAlone(g, c, op, id)
    ensures id in Apply(g, c, t, op) && Apply(g, c, t, op)[id] == t[id]
  {
    if op.Check? { CheckLeavesAlone(g, c, t, op.cookie, op.uuid, id); }
  }

  lemma CheckLeavesAlone(g: Signer, c: Codec, t: Table, cookie: Bytes, uuid: Bytes, id: Bytes)
    requires id in t && LeavesAlone(g, c, Check(cookie, uuid), id)
    ensures var t' := Validate(g, c, t, cookie, uuid).table; id in t' && t'[id] == t[id]
  {
  }

  // ---- When validation hands out a session

  /** The string under "id". */
  function StringId(json: Json): Option<Bytes> {
    match json
    case Null => None
    case Strings(m) => if ID in m then Some(m[ID]) else None
    case Mixed(id) => id
  }

  /** What is wrong with a cookie that makes validation throw: it is not three parts, its payload is
      empty or not base64, there is no string under "id", or the session would have to be restored
      from values that are not all strings. */
  predicate Unreadable(g: Signer, c: Codec, t: Table, cookie: Bytes) {
    var parts := Split(cookie);
    || |parts| != 3
    || (var payload := Decode(Repad(parts[1]));
        || payload == None || payload == Some([])
        || (var json := c.parse(payload.value);
            var id := StringId(json);
            || id == None
            || (VerifyJWT(g, cookie) && json.Mixed? && id.value != [] && id.value !in t)))
  }

  /** Validation throws exactly on an unreadable cookie. Otherwise it hands out the session a verified
      cookie claims, untouched if it is stored, and a new one for any other cookie. */
  lemma ValidateGivesClaimedOrNew(g: Signer, c: Codec, t: Table, cookie: Bytes, uuid: Bytes)
    requires KeysAreIds(t)
    ensures var step := Validate(g, c, t, cookie, uuid);
            && (step.key == None <==> Unreadable(g, c, t, cookie))
            && (step.key == None ==> step.table == t)
            && (step.key.Some? ==>
                  && step.key.value in step.table && step.table[step.key.value].id == step.key.value
                  && var claim := ReadClaim(c, cookie);
                     if VerifyJWT(g, cookie) && claim.Claims?
                     then step.key.value == claim.id && (claim.id in t ==> step.table == t)
                     else step.key.value == uuid && step.table[uuid] == Session(uuid, map[]))
  {
  }

  /** The empty cookie throws, where a new session was meant. */
  lemma EmptyCookieThrows(g: Signer, c: Codec, t: Table, uuid: Bytes)
    ensures Validate(g, c, t, [], uuid) == Step(t, None)
  {
    assert Split([]) == [];
  }

  // ---- Entry by entry

  lemma IdIsText()
    ensures IsText(ID, "id")
  {
  }

  /** What is printed for a session: its values, and its id under "id". */
  lemma ObjectExactly(s: Session)
    requires Proper(s)
    ensures ObjectOf(s).Keys == s.values.Keys + {ID} && ObjectOf(s)[ID] == s.id
    ensures forall k :: k in s.values && k != ID ==> ObjectOf(s)[k] == s.values[k]
  {
  }

  /** A cookie that claims a session and does not verify: that session is erased, a new and empty one is
      handed out, and every other one is as it was. */
  lemma BadSignatureErases(g: Signer, c: Codec, t: Table, cookie: Bytes, uuid: Bytes)
    requires ReadClaim(c, cookie).Claims? && !VerifyJWT(g, cookie)
    ensures var id, step := ReadClaim(c, cookie).id, Validate(g, c, t, cookie, uuid);
            && step.key == Some(uuid) && uuid in step.table
            && step.table[uuid].id == uuid && step.table[uuid].values == map[]
            && (id != uuid ==> id !in step.table)
            && forall k :: k != uuid && k != id ==>
                 (k in step.table <==> k in t) && (k in t ==> step.table[k] == t[k])
  {
  }

  /** A cookie with an empty id gives a new and empty session; nothing else changes. */
  lemma NoIdGivesNew(g: Signer, c: Codec, t: Table, cookie: Bytes, uuid: Bytes)
    requires ReadClaim(c, cookie).NoId?
    ensures var step := Validate(g, c, t, cookie, uuid);
            && step.key == Some(uuid) && uuid in step.table
            && step.table[uuid].id == uuid && step.table[uuid].values == map[]
            && forall k :: k != uuid ==> (k in step.table <==> k in t) && (k in t ==> step.table[k] == t[k])
  {
  }

  /** What one write leaves: adding keeps a value that is there, modifying replaces it, removing takes it
      away; other values and the id stay. */
  lemma EditExactly(s: Session, edit: Edit)
    ensures var r := EditOne(s, edit);
            && r.id == s.id
            && (forall k :: k != edit.key ==>
                  (k in r.values <==> k in s.values) && (k in s.values ==> r.values[k] == s.values[k]))
            && (edit.Add? ==> edit.key in r.values
                              && r.values[edit.key] == if edit.key in s.values then s.values[edit.key] else edit.value)
            && (edit.Modify? ==> edit.key in r.values && r.values[edit.key] == edit.value)
            && (edit.Remove? ==> edit.key !in r.values)
  {
  }

  /** The last write of a key decides; writes of other keys do not matter. */
  lemma {:induction false} LaterEditsKeep(s: Session, edits: seq<Edit>, key: Bytes)
    requires forall i :: 0 <= i < |edits| ==> edits[i].key != key
    ensures var r := Edited(s, edits);
            (key in r.values <==> key in s.values) && (key in s.values ==> r.values[key] == s.values[key])
    decreases |edits|
  {
    if edits != [] { LaterEditsKeep(EditOne(s, edits[0]), edits[1..], key); }
  }

  /** What a handler writes comes back with the cookie of the response: in the token's claim, and in the
      session restored from it where the table has lost it. */
  lemma WriteComesBack(g: Signer, c: Codec, s: Session, key: Bytes, value: Bytes, later: seq<Edit>, t: Table,
                       uuid: Bytes)
    requires DigestNotEmpty(g) && Inverse(c) && Proper(s) && key != ID && uuid != []
    requires SparesId(later) && forall i :: 0 <= i < |later| ==> later[i].key != key
    requires KeysAreIds(t) && s.id !in t
    ensures var written := Edited(EditOne(s, Modify(key, value)), later);
            var step := Validate(g, c, t, GenerateJWT(g, ToString(c, written)), uuid);
            && step.key == Some(s.id) && s.id in step.table
            && key in step.table[s.id].values && step.table[s.id].values[key] == value
  {
    var one := EditOne(s, Modify(key, value));
    EditExactly(s, Modify(key, value));
    LaterEditsKeep(one, later, key);
    EditsKeepProper(one, later);
    var written := Edited(one, later);
    TokenClaims(g, c, written);
    ObjectExactly(written);
    ClaimIsHonoured(g, c, t, GenerateJWT(g, ToString(c, written)), uuid, s.id, ObjectOf(written));
  }
}
