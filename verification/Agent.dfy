/**
 The agent daemon (src/agent_server.cpp): what one request does, the idle lock, and the event loop.
 */
module Agents {
  import opened Prelude
  import opened Endian
  import opened Vaults
  import opened VaultFile
  import opened Storage
  import opened VaultServices
  import opened Totp
  import opened Wire
  import Fuzzy
  import Outcomes

  /** Nanoseconds of the steady clock. */
  type Time = nat
  const SECOND := 1_000_000_000

  const PING: byte := 0x01
  const STATUS: byte := 0x02
  const UNLOCK: byte := 0x03
  const LOCK: byte := 0x04
  const GET_ENTRY: byte := 0x05
  const ADD_ENTRY: byte := 0x06
  const DELETE_ENTRY: byte := 0x07
  const LIST_ENTRIES: byte := 0x08
  const GET_TOTP: byte := 0x09
  const STOP: byte := 0x0A

  const OK: byte := 0x00
  const LOCKED: byte := 0x01
  const ERROR: byte := 0x02
  const NOT_FOUND: byte := 0x03
  const PONG: byte := 0x81

  /** What does not change while the daemon runs; `what` gives the text of an exception. */
  datatype Setting = Setting(crypto: Crypto, hmac: Hmac, path: Path, what: Failure -> bytes, timeout: u32)

  /**
   What the outside decides during one request. `listing` is what `list_entries` returns, which the
   library's sort decides as far as there are equal scores; `ListsWell` says what it is up to that.
   */
  datatype Env = Env(
    at: Time,
    now: Instant,
    delivery: seq<IoEvent>,
    clock: Clock,
    save: SaveEnv,
    listing: Entries)

  datatype Agent = Agent(service: Option<Ram>, lastActivity: Time, running: bool, files: Files)

  function Say(status: byte, text: bytes): Packet {
    Packet(status, Str(text))
  }

  // ---------------------------------------------------------------------------------
  // One request.
  // ---------------------------------------------------------------------------------

  /** Whole seconds since the last activity, truncated. */
  function Elapsed(now: Time, last: Time): int {
    if now >= last then (now - last) / SECOND else -((last - now) / SECOND)
  }

  function CheckIdle(k: Setting, a: Agent, now: Time): Agent {
    if a.service.None? || k.timeout == 0 || Elapsed(now, a.lastActivity) < k.timeout then a
    else a.(service := None)
  }

  function SecondsLeft(k: Setting, a: Agent, now: Time): u32 {
    if a.service.None? || k.timeout == 0 || Elapsed(now, a.lastActivity) >= k.timeout then 0
    else (k.timeout - Elapsed(now, a.lastActivity)) % 0x1_0000_0000
  }

  function StatusReply(k: Setting, a: Agent, now: Time): Packet {
    Packet(OK,
           [if a.service.Some? then 1 else 0]
           + Be(SecondsLeft(k, a, now), 4)
           + Be(if a.service.Some? then Low32(|a.service.value.entries|) else 0, 4))
  }

  function Unlock(k: Setting, a: Agent, password: bytes, env: Env): (Agent, Packet) {
    if k.path !in a.files then
      (a, Say(ERROR, Ascii("Vault has not been initialized. Run 'duckpass init'.")))
    else
      match LoadFile(k.crypto, a.files, k.path, password, env.delivery, env.clock)
      case Err(e) => (a, Say(ERROR, k.what(e)))
      case Ok(es) => (a.(service := Some(Ram(es, password, [])), lastActivity := env.at), Packet(OK, []))
  }

  /** The well-formed data commands. */
  datatype Request =
    | Get(service: bytes)
    | Add(service: bytes, username: bytes, password: bytes, secret: bytes)
    | Delete(service: bytes)
    | List(query: bytes)
    | GetCode(service: bytes)

  predicate IsData(opcode: byte) {
    GET_ENTRY <= opcode <= GET_TOTP
  }

  /** The four strings of an ADD_ENTRY payload, in the order service, user name, password, secret. */
  function DecodeAdd(buf: bytes): Option<Request> {
    match Extract(buf, 0)
    case Extracted(_, None) => None
    case Extracted(o1, Some(s)) =>
      match Extract(buf, o1)
      case Extracted(_, None) => None
      case Extracted(o2, Some(u)) =>
        match Extract(buf, o2)
        case Extracted(_, None) => None
        case Extracted(o3, Some(p)) =>
          match Extract(buf, o3)
          case Extracted(_, None) => None
          case Extracted(_, Some(t)) => Some(Add(s, u, p, t))
  }

  /** What a data packet asks for. A listing tolerates a missing query; the others do not. */
  function Decode(p: Packet): Option<Request>
    requires IsData(p.opcode)
  {
    if p.opcode == ADD_ENTRY then DecodeAdd(p.payload)
    else
      var s := Extract(p.payload, 0).value;
      if p.opcode == LIST_ENTRIES then Some(List(if s.Some? then s.value else []))
      else if s.None? then None
      else if p.opcode == GET_ENTRY then Some(Get(s.value))
      else if p.opcode == DELETE_ENTRY then Some(Delete(s.value))
      else Some(GetCode(s.value))
  }

  function Malformed(opcode: byte): bytes {
    if opcode == GET_ENTRY then Ascii("Malformed get payload.")
    else if opcode == ADD_ENTRY then Ascii("Malformed add payload.")
    else if opcode == DELETE_ENTRY then Ascii("Malformed delete payload.")
    else Ascii("Malformed TOTP payload.")
  }

  function Rows(es: Entries): bytes {
    if es == [] then [] else Str(es[0].service) + (Str(es[0].username) + Rows(es[1..]))
  }

  function Listing(es: Entries): bytes {
    Be(Low32(|es|), 4) + Rows(es)
  }

  function Answered(k: Setting, a: Agent, o: Outcome): (Agent, Packet) {
    (a.(service := Some(o.ram), files := o.files),
     match o.result
     case Ok(_) => Packet(OK, [])
     case Err(e) => Say(ERROR, k.what(e)))
  }

  /** A data command on an unlocked session. */
  function Serve(k: Setting, a: Agent, r: Request, env: Env): (Agent, Packet)
    requires a.service.Some?
  {
    var ram := a.service.value;
    match r
    case Get(s) =>
      (a, match Find(ram.entries, s)
          case None => Say(NOT_FOUND, Ascii("Entry not found."))
          case Some(e) =>
            Packet(OK, Str(e.service) + (Str(e.username) + (Str(e.password) + Str(e.totpSecret)))))
    case Add(s, u, p, t) =>
      Answered(k, a, Added(k.crypto, k.path, ram, a.files, Entry(s, u, p, t, env.now), env.save))
    case Delete(s) =>
      Answered(k, a, Deleted(k.crypto, k.path, ram, a.files, s, env.save))
    case List(_) =>
      (a, Packet(OK, Listing(env.listing)))
    case GetCode(s) =>
      (a, match GetTotp(k.hmac, ram, s, env.now)
          case Err(e) => Say(ERROR, k.what(e))
          case Ok(code) => Packet(OK, Str(code.digits) + Be(code.remaining, 4)))
  }

  function HandleData(k: Setting, a: Agent, p: Packet, env: Env): (Agent, Packet)
    requires IsData(p.opcode)
  {
    match Decode(p)
    case None => (a, Say(ERROR, Malformed(p.opcode)))
    case Some(r) =>
      if a.service.None? then (a, Say(LOCKED, Ascii("Vault is locked in agent.")))
      else Serve(k, a.(lastActivity := env.at), r, env)
  }

  /** `handle_client` on a packet that was read. */
  function Handle(k: Setting, a: Agent, p: Packet, env: Env): (Agent, Packet) {
    if IsData(p.opcode) then HandleData(k, a, p, env)
    else if p.opcode == PING then (a, Packet(PONG, []))
    else if p.opcode == STATUS then (a, StatusReply(k, a, env.at))
    else if p.opcode == UNLOCK then
      match Extract(p.payload, 0).value
      case None => (a, Say(ERROR, Ascii("Invalid unlock payload.")))
      case Some(password) => Unlock(k, a, password, env)
    else if p.opcode == LOCK then (a.(service := None), Packet(OK, []))
    else if p.opcode == STOP then (a.(running := false), Packet(OK, []))
    else (a, Say(ERROR, Ascii("Unknown command opcode.")))
  }

  /** The query of a listing request; a missing one is empty. */
  function Query(p: Packet): bytes {
    var s := Extract(p.payload, 0).value;
    if s.Some? then s.value else []
  }

  /** The listing is one that the entries and the query of the request allow. */
  ghost predicate ListsWell(a: Agent, p: Packet, env: Env) {
    p.opcode == LIST_ENTRIES && a.service.Some? ==> Fuzzy.IsListing(a.service.value.entries, Query(p), env.listing)
  }

  /**
   The reply and the effect of every packet but UNLOCK, STATUS and the served data commands, and the
   status byte of the latter, by the numbers of the protocol.
   */
  lemma ReplyStatus(k: Setting, a: Agent, p: Packet, env: Env)
    ensures var (b, r) := Handle(k, a, p, env);
      && (p.opcode == 0x01 ==> b == a && r == Packet(0x81, []))
      && (p.opcode == 0x04 ==> b == a.(service := None) && r == Packet(0x00, []))
      && (p.opcode == 0x0A ==> b == a.(running := false) && r == Packet(0x00, []))
      && (p.opcode == 0x00 || p.opcode > 0x0A ==> b == a && r.opcode == 0x02)
      && (IsData(p.opcode) <==> p.opcode in {0x05, 0x06, 0x07, 0x08, 0x09})
      && (IsData(p.opcode) && Decode(p).None? ==> b == a && r.opcode == 0x02)
      && (IsData(p.opcode) && Decode(p).Some? && a.service.None? ==> b == a && r.opcode == 0x01)
      && (IsData(p.opcode) && Decode(p).Some? && a.service.Some? ==>
           && b.lastActivity == env.at && b.running == a.running
           && r.opcode == StatusOf(k, a.service.value, a.files, Decode(p).value, env))
  {
    hide Decode, Ascii, Str, Added, Deleted, GetTotp, LoadFile, Find, Malformed, Listing;
  }

  /** 0 for success, 3 for an entry that is not there, 2 for what the service throws. */
  function StatusOf(k: Setting, ram: Ram, files: Files, r: Request, env: Env): byte {
    match r
    case Get(s) => if exists e :: e in ram.entries && e.service == s then 0x00 else 0x03
    case Add(s, u, p, t) =>
      if Added(k.crypto, k.path, ram, files, Entry(s, u, p, t, env.now), env.save).result.Ok? then 0x00 else 0x02
    case Delete(s) => if Deleted(k.crypto, k.path, ram, files, s, env.save).result.Ok? then 0x00 else 0x02
    case List(_) => 0x00
    case GetCode(s) => if GetTotp(k.hmac, ram, s, env.now).Ok? then 0x00 else 0x02
  }

  /** The nine bytes of STATUS: whether the session is open, the seconds left and the number of entries, big-endian. */
  lemma StatusOutcome(k: Setting, a: Agent, env: Env)
    ensures var (b, r) := Handle(k, a, Packet(STATUS, []), env);
      && b == a && r.opcode == OK && |r.payload| == 9
      && r.payload[0] == (if a.service.Some? then 1 else 0)
      && FromBe(r.payload[1..5]) == SecondsLeft(k, a, env.at)
      && (a.service.None? || k.timeout == 0 ==> FromBe(r.payload[1..5]) == 0)
      && (a.service.Some? && |a.service.value.entries| < 0x1_0000_0000 ==>
            FromBe(r.payload[5..9]) == |a.service.value.entries|)
      && (a.service.None? ==> FromBe(r.payload[5..9]) == 0)
  {
    var rem: u32 := SecondsLeft(k, a, env.at);
    var total: u32 := if a.service.Some? then Low32(|a.service.value.entries|) else 0;
    Widths();
    BeRoundTrip(rem, 4);
    BeRoundTrip(total, 4);
    if a.service.Some? && |a.service.value.entries| < 0x1_0000_0000 {
      Low32Exact(|a.service.value.entries|);
    }
    hide Be, FromBe, Low32;
    var payload := StatusReply(k, a, env.at).payload;
    assert payload[1..5] == Be(rem, 4) && payload[5..9] == Be(total, 4);
  }

  // ---------------------------------------------------------------------------------
  // The event loop.
  // ---------------------------------------------------------------------------------

  /**
   One iteration: a signal may have come, the head runs at some time, other processes have left the
   directory in some state, and a client may ask something.
   */
  datatype Turn = Turn(signal: bool, head: Time, found: Files, request: Option<Packet>, env: Env)

  /** The agent after the loop has ended: `stop` locks it. */
  function Stopped(a: Agent): Agent {
    a.(running := false, service := None)
  }

  /** Once the loop has seen that it is not to run, it is over. */
  function Halted(a: Agent): Agent {
    if a.running then a else Stopped(a)
  }

  predicate Alive(a: Agent, t: Turn) {
    a.running && !t.signal
  }

  /** The agent as a request of this turn meets it. */
  function Arrived(k: Setting, a: Agent, t: Turn): Agent {
    CheckIdle(k, a, t.head).(files := t.found)
  }

  function Next(k: Setting, a: Agent, t: Turn): Agent {
    if !Alive(a, t) then Stopped(a)
    else if t.request.None? then Arrived(k, a, t)
    else Handle(k, Arrived(k, a, t), t.request.value, t.env).0
  }

  function Reply(k: Setting, a: Agent, t: Turn): Option<Packet> {
    if !Alive(a, t) || t.request.None? then None
    else Some(Handle(k, Arrived(k, a, t), t.request.value, t.env).1)
  }

  /** The agent before turn `n` of a trace. */
  function Before(k: Setting, a: Agent, ts: seq<Turn>, n: nat): Agent
    requires n <= |ts|
  {
    if n == 0 then a else Next(k, Before(k, a, ts, n - 1), ts[n - 1])
  }

  function ReplyAt(k: Setting, a: Agent, ts: seq<Turn>, n: nat): Option<Packet>
    requires n < |ts|
  {
    Reply(k, Before(k, a, ts, n), ts[n])
  }

  /** The steady clock does not go back. */
  ghost predicate Monotone(ts: seq<Turn>) {
    && (forall n :: 0 <= n < |ts| ==> ts[n].head <= ts[n].env.at)
    && (forall n :: 0 < n < |ts| ==> ts[n - 1].env.at <= ts[n].head)
  }

  // ---------------------------------------------------------------------------------
  // Session safety. What a client can see of a trace decides whether it is served.
  // ---------------------------------------------------------------------------------

  /** The password of an unlock packet opens the vault file that is there, and these are its entries. */
  ghost predicate OpensWith(k: Setting, p: Packet, files: Files, env: Env, password: bytes, es: Entries) {
    && p.opcode == UNLOCK && Extract(p.payload, 0).value == Some(password)
    && k.path in files
    && LoadFile(k.crypto, files, k.path, password, env.delivery, env.clock) == Ok(es)
  }

  /**
   An UNLOCK is answered OK exactly if it carries a string that opens the file; the session then
   holds just that vault and password. Otherwise the reply is ERROR and the agent is as it was.
   */
  lemma UnlockOutcome(k: Setting, a: Agent, p: Packet, env: Env)
    requires p.opcode == UNLOCK
    ensures var (b, r) := Handle(k, a, p, env);
      && (forall password, es :: OpensWith(k, p, a.files, env, password, es) ==>
            b == a.(service := Some(Ram(es, password, [])), lastActivity := env.at) && r == Packet(OK, []))
      && (!(exists password, es :: OpensWith(k, p, a.files, env, password, es)) ==> b == a && r.opcode == ERROR)
  {
    hide Extract, LoadFile, Ascii, Str;
    var password := Extract(p.payload, 0).value;
    if password.Some? && k.path in a.files {
      var loaded := LoadFile(k.crypto, a.files, k.path, password.value, env.delivery, env.clock);
      if loaded.Ok? {
        assert OpensWith(k, p, a.files, env, password.value, loaded.value);
      }
    }
  }

  /** A vault file answers to its own password only; every other UNLOCK leaves the agent as it was. */
  lemma WrongPasswordIsRefused(
      k: Setting, a: Agent, p: Packet, env: Env, es: Entries, password: bytes, salt: Salt, iv: Iv)
    requires Ideal(k.crypto) && WellFormed(es) && p.opcode == UNLOCK && k.path in a.files
    requires Package(k.crypto, es, password, salt, iv) == Result.Ok(a.files[k.path])
    ensures var (b, r) := Handle(k, a, p, env);
      && (r.opcode == OK <==>
            && Extract(p.payload, 0).value == Some(password)
            && |a.files[k.path]| <= MAX_FILE && Arrives(|a.files[k.path]|, env.delivery))
      && (r.opcode == OK ==> b == a.(service := Some(Ram(es, password, [])), lastActivity := env.at))
      && (r.opcode != OK ==> b == a && r.opcode == ERROR)
  {
    hide Extract, Package, Load, Handle, WellFormed, Arrives;
    UnlockOutcome(k, a, p, env);
    FileRoundTrip(k.crypto, es, password, salt, iv, env.clock);
    var given := Extract(p.payload, 0).value;
    if given.Some? {
      if given.value != password {
        OtherPasswordFails(k.crypto, es, password, salt, iv, given.value, env.clock);
      }
      var loaded := LoadFile(k.crypto, a.files, k.path, given.value, env.delivery, env.clock);
      assert loaded.Ok? ==> OpensWith(k, p, a.files, env, given.value, loaded.value);
    }
  }

  /** The loop takes an unlock at turn `n`, with a password that opens the file found there. */
  ghost predicate UnlockedWith(k: Setting, a: Agent, ts: seq<Turn>, n: nat, password: bytes)
    requires n < |ts|
  {
    && Alive(Before(k, a, ts, n), ts[n]) && ts[n].request.Some?
    && exists es :: OpensWith(k, ts[n].request.value, ts[n].found, ts[n].env, password, es)
  }

  ghost predicate UnlockedAt(k: Setting, a: Agent, ts: seq<Turn>, n: nat)
    requires n < |ts|
  {
    exists password :: UnlockedWith(k, a, ts, n, password)
  }

  /** What a client sees of it: the reply OK. */
  lemma UnlockIsAnswered(k: Setting, a: Agent, ts: seq<Turn>, n: nat)
    requires n < |ts|
    ensures UnlockedAt(k, a, ts, n) <==>
      && ts[n].request.Some? && ts[n].request.value.opcode == UNLOCK
      && ReplyAt(k, a, ts, n).Some? && ReplyAt(k, a, ts, n).value.opcode == OK
    ensures forall password :: UnlockedWith(k, a, ts, n, password) ==>
      var b := Before(k, a, ts, n + 1);
      && b.service.Some? && b.service.value.password == password && b.service.value.tombs == []
      && b.lastActivity == ts[n].env.at
  {
    hide Handle, CheckIdle, OpensWith, Before;
    var t, b := ts[n], Before(k, a, ts, n);
    BeforeNext(k, a, ts, n);
    if Alive(b, t) && t.request.Some? {
      UnlockOnly(k, t.request.value, t.found, t.env);
      if t.request.value.opcode == UNLOCK {
        UnlockOutcome(k, Arrived(k, b, t), t.request.value, t.env);
        if exists password, es :: OpensWith(k, t.request.value, t.found, t.env, password, es) {
          var password, es :| OpensWith(k, t.request.value, t.found, t.env, password, es);
          assert UnlockedWith(k, a, ts, n, password);
        }
      }
    }
  }

  lemma BeforeNext(k: Setting, a: Agent, ts: seq<Turn>, n: nat)
    requires n < |ts|
    ensures Before(k, a, ts, n + 1) == Next(k, Before(k, a, ts, n), ts[n])
  {
  }

  lemma UnlockOnly(k: Setting, p: Packet, files: Files, env: Env)
    ensures forall password, es :: OpensWith(k, p, files, env, password, es) ==> p.opcode == UNLOCK
  {
  }

  ghost predicate AsksData(t: Turn) {
    t.request.Some? && IsData(t.request.value.opcode) && Decode(t.request.value).Some?
  }

  ghost predicate ServedAt(k: Setting, a: Agent, ts: seq<Turn>, n: nat)
    requires n < |ts|
  {
    AsksData(ts[n]) && ReplyAt(k, a, ts, n).Some? && ReplyAt(k, a, ts, n).value.opcode != LOCKED
  }

  /** The time of the last unlock or data command before turn `n`. */
  ghost function LastActive(k: Setting, a: Agent, ts: seq<Turn>, n: nat): Option<Time>
    requires n <= |ts|
  {
    if n == 0 then None
    else if UnlockedAt(k, a, ts, n - 1) || ServedAt(k, a, ts, n - 1) then Some(ts[n - 1].env.at)
    else LastActive(k, a, ts, n - 1)
  }

  /** At the head of turn `n` fewer than `timeout` seconds have passed without activity. */
  ghost predicate InTime(k: Setting, a: Agent, ts: seq<Turn>, n: nat)
    requires n < |ts|
  {
    k.timeout == 0
    || (LastActive(k, a, ts, n).Some? && ts[n].head < LastActive(k, a, ts, n).value + k.timeout * SECOND)
  }

  ghost predicate Undisturbed(t: Turn) {
    !t.signal && (t.request.Some? ==> t.request.value.opcode != LOCK && t.request.value.opcode != STOP)
  }

  /** An unlock at turn `j` that nothing has ended before turn `n`. */
  ghost predicate Licence(k: Setting, a: Agent, ts: seq<Turn>, j: nat, n: nat)
    requires n <= |ts|
  {
    && j < n && UnlockedAt(k, a, ts, j)
    && forall m :: j < m < n ==> Undisturbed(ts[m]) && InTime(k, a, ts, m)
  }

  ghost predicate Started(a: Agent) {
    a.running && a.service.None?
  }

  lemma IdleMeansTimeout(k: Setting, a: Agent, now: Time)
    requires a.service.Some? && a.lastActivity <= now
    ensures CheckIdle(k, a, now).service.Some? <==> k.timeout == 0 || now < a.lastActivity + k.timeout * SECOND
  {
  }

  /** Only an unlock changes the password of an open session. */
  lemma HandleKeepsPassword(k: Setting, a: Agent, p: Packet, env: Env)
    requires a.service.Some? && p.opcode != UNLOCK
    ensures var b := Handle(k, a, p, env).0;
      b.service.Some? ==> b.service.value.password == a.service.value.password
  {
    hide Added, Deleted, GetTotp, Find, Ascii, Str, StatusReply;
    if IsData(p.opcode) && Decode(p).Some? {
      var ram := a.service.value;
      match Decode(p).value {
        case Add(s, u, pw, t) =>
          Outcomes.EditsKeepPassword(k.crypto, k.path, ram, a.files, Entry(s, u, pw, t, env.now), s, env.save);
        case Delete(s) =>
          Outcomes.EditsKeepPassword(k.crypto, k.path, ram, a.files, Entry(s, [], [], [], 1), s, env.save);
        case _ =>
      }
    }
  }

  /** A request other than LOCK and an unlock that succeeds leaves the session as it is, open or not. */
  lemma HandleKeepsSession(k: Setting, a: Agent, p: Packet, env: Env)
    ensures var (b, r) := Handle(k, a, p, env);
      && (p.opcode == UNLOCK && r.opcode == OK ==> b.service.Some? && b.lastActivity == env.at)
      && (p.opcode == LOCK ==> b.service.None?)
      && (p.opcode != LOCK && !(p.opcode == UNLOCK && r.opcode == OK) ==>
            (b.service.Some? <==> a.service.Some?)
            && b.lastActivity
               == if IsData(p.opcode) && Decode(p).Some? && r.opcode != LOCKED then env.at else a.lastActivity)
      && (IsData(p.opcode) && Decode(p).Some? ==> (r.opcode == LOCKED <==> a.service.None?))
      && (b.running <==> a.running && p.opcode != STOP)
  {
    hide Decode, Ascii, Added, Deleted, GetTotp, LoadFile, Find, Malformed, Rows;
  }

  /** The last of the unlocks that license the session; its password is the session's. */
  ghost predicate Current(k: Setting, a: Agent, ts: seq<Turn>, j: nat, n: nat, password: bytes)
    requires n <= |ts|
  {
    && Licence(k, a, ts, j, n) && UnlockedWith(k, a, ts, j, password)
    && forall m :: j < m < n ==> !UnlockedAt(k, a, ts, m)
  }

  /**
   While the loop runs, the session is open exactly if some unlock still licenses it, with the password
   of the last such unlock, and it dates from the last activity.
   */
  ghost predicate SessionOk(k: Setting, a: Agent, ts: seq<Turn>, n: nat)
    requires n <= |ts|
  {
    var b := Before(k, a, ts, n);
    && (b.running ==> (b.service.Some? <==> exists j :: Licence(k, a, ts, j, n)))
    && (b.running && b.service.Some? ==> exists j :: Current(k, a, ts, j, n, b.service.value.password))
    && (b.service.Some? ==> LastActive(k, a, ts, n) == Some(b.lastActivity))
    && (LastActive(k, a, ts, n).Some? ==> n > 0 && LastActive(k, a, ts, n).value <= ts[n - 1].env.at)
  }

  lemma {:induction false} SessionInvariant(k: Setting, a: Agent, ts: seq<Turn>, n: nat)
    requires Started(a) && Monotone(ts) && n <= |ts|
    ensures SessionOk(k, a, ts, n)
  {
    if n > 0 {
      SessionInvariant(k, a, ts, n - 1);
      SessionStep(k, a, ts, n - 1, n);
    }
  }

  lemma SessionStep(k: Setting, a: Agent, ts: seq<Turn>, m: nat, n: nat)
    requires Started(a) && Monotone(ts) && m + 1 == n <= |ts|
    requires SessionOk(k, a, ts, m)
    ensures SessionOk(k, a, ts, n)
  {
    hide Handle, Elapsed, CheckIdle, Decode, UnlockedAt, UnlockedWith;
    var b, t, b' := Before(k, a, ts, m), ts[m], Before(k, a, ts, n);
    UnlockIsAnswered(k, a, ts, m);
    if b.service.Some? {
      IdleMeansTimeout(k, b, t.head);
    }
    var c := Arrived(k, b, t);
    CheckIdleOnlyLocks(k, b, t.head);
    if t.request.Some? {
      HandleKeepsSession(k, c, t.request.value, t.env);
    }
    if b'.running {
      if b'.service.Some? {
        if UnlockedAt(k, a, ts, m) {
          FreshUnlock(k, a, ts, m, n);
        } else {
          if t.request.Some? && t.request.value.opcode != UNLOCK {
            HandleKeepsPassword(k, c, t.request.value, t.env);
          }
          if t.request.Some? && t.request.value.opcode == UNLOCK {
            UnlockOutcome(k, c, t.request.value, t.env);
          }
          var j :| Current(k, a, ts, j, m, b.service.value.password);
          assert Current(k, a, ts, j, n, b.service.value.password);
        }
      }
      forall j: nat | Licence(k, a, ts, j, n) ensures b'.service.Some? {
        assert j < m ==> Licence(k, a, ts, j, m);
      }
    }
  }

  lemma FreshUnlock(k: Setting, a: Agent, ts: seq<Turn>, m: nat, n: nat)
    requires m + 1 == n <= |ts| && UnlockedAt(k, a, ts, m)
    ensures Licence(k, a, ts, m, n) && Before(k, a, ts, n).service.Some?
    ensures Current(k, a, ts, m, n, Before(k, a, ts, n).service.value.password)
  {
    hide Before, ReplyAt;
    UnlockIsAnswered(k, a, ts, m);
    var password :| UnlockedWith(k, a, ts, m, password);
  }

  lemma CheckIdleOnlyLocks(k: Setting, a: Agent, now: Time)
    ensures CheckIdle(k, a, now) == a || CheckIdle(k, a, now) == a.(service := None)
    ensures a.service.None? ==> CheckIdle(k, a, now) == a
  {
  }

  /**
   Session safety, both ways and over every trace: a well-formed data command that the loop takes
   is refused as LOCKED if and only if there is no earlier UNLOCK, with a password that opened the
   file found there, after which there was no LOCK, no STOP, no signal, and no loop head, this one
   included, at or after `timeout` seconds without an unlock or a data command.
   */
  lemma ServedExactlyWhenLicensed(k: Setting, a: Agent, ts: seq<Turn>, n: nat)
    requires Started(a) && Monotone(ts) && n < |ts|
    requires AsksData(ts[n]) && ReplyAt(k, a, ts, n).Some?
    ensures ReplyAt(k, a, ts, n).value.opcode != LOCKED
       <==> exists j :: Licence(k, a, ts, j, n) && InTime(k, a, ts, n)
  {
    hide Handle, Elapsed, CheckIdle;
    SessionInvariant(k, a, ts, n);
    var b, t := Before(k, a, ts, n), ts[n];
    if b.service.Some? {
      IdleMeansTimeout(k, b, t.head);
      var j :| Licence(k, a, ts, j, n);
    }
    CheckIdleOnlyLocks(k, b, t.head);
    HandleKeepsSession(k, Arrived(k, b, t), t.request.value, t.env);
  }

  /**
   The first loop head at or after `timeout` seconds without activity locks the vault, whatever else
   was asked meanwhile.
   */
  lemma IdleExpiryLocks(k: Setting, a: Agent, ts: seq<Turn>, n: nat)
    requires Started(a) && Monotone(ts) && n < |ts| && k.timeout > 0
    requires LastActive(k, a, ts, n).Some? ==> ts[n].head >= LastActive(k, a, ts, n).value + k.timeout * SECOND
    ensures CheckIdle(k, Before(k, a, ts, n), ts[n].head).service.None?
  {
    hide Handle, Elapsed;
    SessionInvariant(k, a, ts, n);
    var b := Before(k, a, ts, n);
    if b.service.Some? {
      IdleMeansTimeout(k, b, ts[n].head);
    }
  }

  /** PING and STATUS change nothing at all, so they do not extend the session. */
  lemma PingAndStatusAreSilent(k: Setting, a: Agent, p: Packet, env: Env)
    requires p.opcode == PING || p.opcode == STATUS
    ensures Handle(k, a, p, env).0 == a
  {
  }

  /**
   The remaining time in STATUS: with `d` nanoseconds idle out of `T` seconds, `r` seconds satisfy
   r - 1 < T - d <= r.
   */
  lemma StatusIsAccurate(k: Setting, a: Agent, now: Time)
    requires a.service.Some? && k.timeout > 0
    requires a.lastActivity <= now < a.lastActivity + k.timeout * SECOND
    ensures var (r, d) := (SecondsLeft(k, a, now), now - a.lastActivity);
      && (r - 1) * SECOND < k.timeout * SECOND - d <= r * SECOND
      && 1 <= r <= k.timeout
  {
  }

  // ---------------------------------------------------------------------------------
  // The class.
  // ---------------------------------------------------------------------------------

  /** Whatever ends the loop, STOP or a signal, leaves the agent locked and not running, for good. */
  lemma EndsLocked(k: Setting, a: Agent, ts: seq<Turn>, i: nat, n: nat)
    requires i < n <= |ts| && !Alive(Before(k, a, ts, i), ts[i])
    ensures Before(k, a, ts, n).service.None? && !Before(k, a, ts, n).running
    ensures Before(k, a, ts, n).files == Before(k, a, ts, i).files
    ensures forall b: Agent :: Halted(b).running || Halted(b).service.None?
  {
    hide Before;
    StoppedStays(k, a, ts, i, n);
  }

  lemma {:induction false} StoppedStays(k: Setting, a: Agent, ts: seq<Turn>, i: nat, n: nat)
    requires i < n <= |ts| && !Alive(Before(k, a, ts, i), ts[i])
    ensures Before(k, a, ts, n) == Stopped(Before(k, a, ts, i))
    ensures n < |ts| ==> ReplyAt(k, a, ts, n) == None
    decreases n
  {
    hide Handle, CheckIdle;
    if i + 1 < n {
      StoppedStays(k, a, ts, i, n - 1);
    }
  }

  lemma {:induction false} RowsSnoc(es: Entries, i: nat)
    requires i < |es|
    ensures Rows(es[..i + 1]) == Rows(es[..i]) + (Str(es[i].service) + Str(es[i].username))
  {
    hide Str;
    if i == 0 {
      assert es[..1] == [es[0]] && es[..0] == [];
      assert Rows([es[0]]) == Str(es[0].service) + (Str(es[0].username) + Rows([es[0]][1..]));
      assert Str(es[0].username) + [] == Str(es[0].username);
    } else {
      RowsSnoc(es[1..], i - 1);
      assert es[..i + 1][1..] == es[1..][..i] && es[..i][1..] == es[1..][..i - 1];
      var x, y := Str(es[0].service), Str(es[0].username);
      var z, w := Rows(es[1..][..i - 1]), Str(es[i].service) + Str(es[i].username);
      assert x + (y + (z + w)) == (x + (y + z)) + w;
    }
  }

  class AgentServer {
    const setting: Setting
    const disk: Disk
    var service: VaultService?
    var lastActivity: Time
    var running: bool

    constructor (setting: Setting, disk: Disk)
      requires disk.Valid()
      ensures Valid() && this.setting == setting && this.disk == disk && fresh(Repr() - {disk})
      ensures State() == Agent(None, 0, true, disk.files)
    {
      this.setting, this.disk := setting, disk;
      service, lastActivity, running := null, 0, true;
    }

    ghost function Repr(): set<object>
      reads this
    {
      {this, disk} + if service == null then {} else {service, service.vault}
    }

    ghost predicate Valid()
      reads this, Repr()
    {
      && disk.Valid()
      && (service != null ==>
           && service.disk == disk && service.Valid()
           && service.path == setting.path && service.crypto == setting.crypto)
    }

    ghost function State(): Agent
      reads this, Repr()
    {
      Agent(if service == null then None else Some(service.Memory()), lastActivity, running, disk.files)
    }

    method CheckIdleTimeout(now: Time)
      requires Valid()
      modifies this`service
      ensures Valid() && Repr() <= old(Repr())
      ensures State() == CheckIdle(setting, old(State()), now)
    {
      if service == null || setting.timeout == 0 {
        return;
      }
      if Elapsed(now, lastActivity) >= setting.timeout {
        service := null;
      }
    }

    /** What other processes did to the directory. */
    method Meet(found: Files)
      requires Valid()
      modifies disk
      ensures Valid() && State() == old(State()).(files := found)
    {
      disk.Change(found);
    }

    method Status(now: Time) returns (resp: Packet)
      requires Valid()
      ensures resp == StatusReply(setting, State(), now)
    {
      hide Be, Low32;
      var payload: bytes := [if service != null then 1 else 0];
      var rem: u32 := 0;
      if service != null && setting.timeout > 0 {
        var elapsed := Elapsed(now, lastActivity);
        rem := if elapsed < setting.timeout then (setting.timeout - elapsed) % 0x1_0000_0000 else 0;
      }
      payload := payload + Be(rem, 4);
      var total: u32 := 0;
      if service != null {
        total := Low32(|service.vault.entries|);
      }
      payload := payload + Be(total, 4);
      resp := Packet(OK, payload);
    }

    method HandleUnlock(payload: bytes, env: Env) returns (resp: Packet)
      requires Valid()
      modifies Repr()
      ensures Valid() && fresh(Repr() - old(Repr()))
      ensures (State(), resp) == Handle(setting, old(State()), Packet(UNLOCK, payload), env)
    {
      hide Extract, LoadFile, Ascii, Str, HandleData;
      var password := ExtractString(payload, 0);
      if password.value.None? {
        return Say(ERROR, Ascii("Invalid unlock payload."));
      }
      if setting.path !in disk.files {
        return Say(ERROR, Ascii("Vault has not been initialized. Run 'duckpass init'."));
      }
      var started := OpenService(setting.path, setting.crypto, disk, password.value.value, env.delivery, env.clock);
      if started.Err? {
        return Say(ERROR, setting.what(started.error));
      }
      service, lastActivity := started.value, env.at;
      resp := Packet(OK, []);
    }

    method HandleGet(payload: bytes, env: Env) returns (resp: Packet)
      requires Valid()
      modifies this`lastActivity
      ensures Valid() && (State(), resp) == HandleData(setting, old(State()), Packet(GET_ENTRY, payload), env)
    {
      hide Extract, Ascii, Str, Find;
      var name := ExtractString(payload, 0);
      if name.value.None? {
        return Say(ERROR, Ascii("Malformed get payload."));
      }
      if service == null {
        return Say(LOCKED, Ascii("Vault is locked in agent."));
      }
      lastActivity := env.at;
      var e := service.vault.GetEntry(name.value.value);
      if e.None? {
        return Say(NOT_FOUND, Ascii("Entry not found."));
      }
      resp := Packet(OK, Str(e.value.service)
          + (Str(e.value.username) + (Str(e.value.password) + Str(e.value.totpSecret))));
    }

    method HandleAdd(payload: bytes, env: Env) returns (resp: Packet)
      requires Valid()
      modifies Repr()
      ensures Valid() && Repr() == old(Repr())
      ensures (State(), resp) == HandleData(setting, old(State()), Packet(ADD_ENTRY, payload), env)
    {
      hide Extract, Ascii, Str, Added;
      var name := ExtractString(payload, 0);
      if name.value.None? {
        return Say(ERROR, Ascii("Malformed add payload."));
      }
      var username := ExtractString(payload, name.offset);
      if username.value.None? {
        return Say(ERROR, Ascii("Malformed add payload."));
      }
      var password := ExtractString(payload, username.offset);
      if password.value.None? {
        return Say(ERROR, Ascii("Malformed add payload."));
      }
      var secret := ExtractString(payload, password.offset);
      if secret.value.None? {
        return Say(ERROR, Ascii("Malformed add payload."));
      }
      if service == null {
        return Say(LOCKED, Ascii("Vault is locked in agent."));
      }
      lastActivity := env.at;
      var done := service.Add(name.value.value, username.value.value, password.value.value, secret.value.value,
          env.now, env.save);
      resp := if done.Ok? then Packet(OK, []) else Say(ERROR, setting.what(done.error));
    }

    method HandleDelete(payload: bytes, env: Env) returns (resp: Packet)
      requires Valid()
      modifies Repr()
      ensures Valid() && Repr() == old(Repr())
      ensures (State(), resp) == HandleData(setting, old(State()), Packet(DELETE_ENTRY, payload), env)
    {
      hide Extract, Ascii, Str, Deleted;
      var name := ExtractString(payload, 0);
      if name.value.None? {
        return Say(ERROR, Ascii("Malformed delete payload."));
      }
      if service == null {
        return Say(LOCKED, Ascii("Vault is locked in agent."));
      }
      lastActivity := env.at;
      var done := service.Delete(name.value.value, env.save);
      resp := if done.Ok? then Packet(OK, []) else Say(ERROR, setting.what(done.error));
    }

    method HandleList(payload: bytes, env: Env) returns (resp: Packet, ghost done: Env)
      requires Valid()
      modifies this`lastActivity
      ensures done == env.(listing := done.listing) && ListsWell(old(State()), Packet(LIST_ENTRIES, payload), done)
      ensures Valid() && (State(), resp) == HandleData(setting, old(State()), Packet(LIST_ENTRIES, payload), done)
    {
      hide Extract, Ascii, Str, Listing, Fuzzy.IsListing;
      done := env;
      var found := ExtractString(payload, 0);
      var query := if found.value.Some? then found.value.value else [];
      if service == null {
        resp := Say(LOCKED, Ascii("Vault is locked in agent."));
        return;
      }
      lastActivity := env.at;
      var entries := service.ListEntries(query);
      done := env.(listing := entries);
      var body := ListPayload(entries);
      resp := Packet(OK, body);
    }

    method HandleTotp(payload: bytes, env: Env) returns (resp: Packet)
      requires Valid()
      modifies this`lastActivity
      ensures Valid() && (State(), resp) == HandleData(setting, old(State()), Packet(GET_TOTP, payload), env)
    {
      hide Extract, Ascii, Str, GetTotp, Be;
      var name := ExtractString(payload, 0);
      if name.value.None? {
        return Say(ERROR, Ascii("Malformed TOTP payload."));
      }
      if service == null {
        return Say(LOCKED, Ascii("Vault is locked in agent."));
      }
      lastActivity := env.at;
      var code := service.GetTotpCode(setting.hmac, name.value.value, env.now);
      if code.Err? {
        return Say(ERROR, setting.what(code.error));
      }
      resp := Packet(OK, Str(code.value.digits) + Be(code.value.remaining, 4));
    }

    /** The payload of a listing: a count, then service and user name of each entry. */
    method ListPayload(entries: Entries) returns (resp: bytes)
      ensures resp == Listing(entries)
    {
      hide Be, Str;
      resp := Be(Low32(|entries|), 4);
      var i := 0;
      assert resp + Rows(entries[..0]) == resp;
      while i < |entries|
        invariant 0 <= i <= |entries|
        invariant resp == Be(Low32(|entries|), 4) + Rows(entries[..i])
      {
        RowsSnoc(entries, i);
        ghost var before := resp;
        resp := resp + Str(entries[i].service);
        resp := resp + Str(entries[i].username);
        assert resp == before + (Str(entries[i].service) + Str(entries[i].username));
        i := i + 1;
      }
      assert entries[..i] == entries;
    }

    /** `handle_client` on a packet that was read; `done` tells which listing was made. */
    method HandleClient(p: Packet, env: Env) returns (resp: Packet, ghost done: Env)
      requires Valid()
      modifies Repr()
      ensures Valid() && fresh(Repr() - old(Repr()))
      ensures done == env.(listing := done.listing) && ListsWell(old(State()), p, done)
      ensures (State(), resp) == Handle(setting, old(State()), p, done)
    {
      hide HandleData, StatusReply, Unlock, Extract, Ascii, Str, Fuzzy.IsListing, Query;
      done := env;
      if p.opcode == PING {
        resp := Packet(PONG, []);
      } else if p.opcode == STATUS {
        resp := Status(env.at);
      } else if p.opcode == UNLOCK {
        resp := HandleUnlock(p.payload, env);
      } else if p.opcode == LOCK {
        service := null;
        resp := Packet(OK, []);
      } else if p.opcode == STOP {
        running := false;
        resp := Packet(OK, []);
      } else if p.opcode == GET_ENTRY {
        resp := HandleGet(p.payload, env);
      } else if p.opcode == ADD_ENTRY {
        resp := HandleAdd(p.payload, env);
      } else if p.opcode == DELETE_ENTRY {
        resp := HandleDelete(p.payload, env);
      } else if p.opcode == LIST_ENTRIES {
        resp, done := HandleList(p.payload, env);
      } else if p.opcode == GET_TOTP {
        resp := HandleTotp(p.payload, env);
      } else {
        resp := Say(ERROR, Ascii("Unknown command opcode."));
      }
    }

    /** One iteration of the loop. */
    method TakeTurn(turn: Turn) returns (reply: Option<Packet>, ghost done: Turn)
      requires Valid() && running && !turn.signal
      modifies Repr()
      ensures Valid() && fresh(Repr() - old(Repr()))
      ensures SameButListing(turn, done) && TurnListsWell(setting, old(State()), done)
      ensures State() == Next(setting, old(State()), done) && reply == Reply(setting, old(State()), done)
    {
      hide Handle, CheckIdle, ListsWell;
      CheckIdleTimeout(turn.head);
      Meet(turn.found);
      reply, done := None, turn;
      if turn.request.Some? {
        var resp;
        ghost var env;
        resp, env := HandleClient(turn.request.value, turn.env);
        reply, done := Some(resp), turn.(env := env);
      }
    }

    /**
     The loop of `run`, over the turns that the outside takes it through, and `stop` on the way out.
     `done` are those turns with the listings that were made.
     */
    method Run(turns: seq<Turn>) returns (replies: seq<Option<Packet>>, ghost done: seq<Turn>)
      requires Valid()
      modifies Repr()
      ensures Valid() && fresh(Repr() - old(Repr()))
      ensures |done| == |turns| && forall n :: 0 <= n < |turns| ==> SameButListing(turns[n], done[n])
      ensures State() == Halted(Before(setting, old(State()), done, |turns|))
      ensures |replies| <= |turns|
      ensures forall n :: 0 <= n < |turns| ==>
        ReplyAt(setting, old(State()), done, n) == if n < |replies| then replies[n] else None
      ensures forall n :: 0 <= n < |replies| ==> TurnListsWell(setting, Before(setting, old(State()), done, n), done[n])
    {
      hide Next, Reply, Traced, Before;
      ghost var a := State();
      ghost var taken: seq<Turn> := [];
      replies := [];
      TraceStart(setting, a, turns);
      while |replies| < |turns| && running && !turns[|replies|].signal
        invariant |replies| <= |turns| && |taken| == |replies| && Traced(setting, a, turns, taken, replies)
        invariant Valid() && fresh(Repr() - old(Repr()))
        invariant State() == Before(setting, a, taken, |taken|)
        decreases |turns| - |replies|
      {
        var reply;
        ghost var turn;
        reply, turn := TakeTurn(turns[|replies|]);
        TraceSnoc(setting, a, turns, taken, replies, turn, reply);
        replies, taken := replies + [reply], taken + [turn];
      }
      TraceEnd(setting, a, turns, taken, replies);
      done := taken + turns[|taken|..];
      if |replies| < |turns| || !running {
        running := false;
        service := null;
      }
    }
  }

  ghost predicate TracedAt(
      k: Setting, a: Agent, turns: seq<Turn>, taken: seq<Turn>, replies: seq<Option<Packet>>, n: nat)
    requires n < |taken| && |taken| == |replies| <= |turns|
  {
    && SameButListing(turns[n], taken[n])
    && ReplyAt(k, a, taken, n) == replies[n]
    && TurnListsWell(k, Before(k, a, taken, n), taken[n])
  }

  /** What the loop has gone through so far. */
  ghost predicate Traced(k: Setting, a: Agent, turns: seq<Turn>, taken: seq<Turn>, replies: seq<Option<Packet>>) {
    && |taken| == |replies| <= |turns|
    && forall n: nat :: n < |taken| ==> TracedAt(k, a, turns, taken, replies, n)
  }

  lemma TraceStart(k: Setting, a: Agent, turns: seq<Turn>)
    ensures Traced(k, a, turns, [], []) && Before(k, a, [], 0) == a
  {
  }

  lemma TraceSnoc(k: Setting, a: Agent, turns: seq<Turn>, taken: seq<Turn>, replies: seq<Option<Packet>>,
                  t: Turn, reply: Option<Packet>)
    requires Traced(k, a, turns, taken, replies) && |taken| < |turns| && SameButListing(turns[|taken|], t)
    requires var b := Before(k, a, taken, |taken|); reply == Reply(k, b, t) && TurnListsWell(k, b, t)
    ensures Traced(k, a, turns, taken + [t], replies + [reply])
    ensures Before(k, a, taken + [t], |taken| + 1) == Next(k, Before(k, a, taken, |taken|), t)
  {
    hide Next, Reply, TurnListsWell, SameButListing;
    var more := taken + [t];
    forall n: nat | n <= |taken|
      ensures Before(k, a, more, n) == Before(k, a, taken, n)
      ensures TracedAt(k, a, turns, more, replies + [reply], n)
    {
      BeforePrefix(k, a, more, taken, n);
      assert n < |taken| ==> TracedAt(k, a, turns, taken, replies, n);
    }
  }

  /** The turns that the loop did not take, because it ended before, change nothing but that. */
  lemma TraceEnd(k: Setting, a: Agent, turns: seq<Turn>, taken: seq<Turn>, replies: seq<Option<Packet>>)
    requires Traced(k, a, turns, taken, replies)
    requires |taken| < |turns| ==> !Alive(Before(k, a, taken, |taken|), turns[|taken|])
    ensures var all := taken + turns[|taken|..];
      && |all| == |turns| && (forall n :: 0 <= n < |turns| ==> SameButListing(turns[n], all[n]))
      && (forall n :: 0 <= n < |turns| ==> ReplyAt(k, a, all, n) == if n < |replies| then replies[n] else None)
      && (forall n :: 0 <= n < |replies| ==> TurnListsWell(k, Before(k, a, all, n), all[n]))
      && Before(k, a, all, |turns|)
         == if |taken| < |turns| then Stopped(Before(k, a, taken, |taken|)) else Before(k, a, taken, |taken|)
  {
    hide Next, Reply, TurnListsWell, Before;
    var all, i := taken + turns[|taken|..], |taken|;
    forall n: nat | n <= i
      ensures Before(k, a, all, n) == Before(k, a, taken, n)
      ensures n < i ==> ReplyAt(k, a, all, n) == replies[n] && TurnListsWell(k, Before(k, a, all, n), all[n])
      ensures n < i ==> SameButListing(turns[n], all[n])
    {
      BeforePrefix(k, a, all, taken, n);
      assert n < i ==> TracedAt(k, a, turns, taken, replies, n);
    }
    if i < |turns| {
      StopHere(k, a, all, i);
      forall n: nat | i < n <= |turns|
        ensures Before(k, a, all, n) == Stopped(Before(k, a, all, i))
        ensures n < |turns| ==> ReplyAt(k, a, all, n) == None
      {
        StoppedStays(k, a, all, i, n);
      }
    }
  }

  ghost predicate SameButListing(t: Turn, done: Turn) {
    done == t.(env := t.env.(listing := done.env.listing))
  }

  ghost predicate TurnListsWell(k: Setting, a: Agent, t: Turn) {
    t.request.Some? ==> ListsWell(Arrived(k, a, t), t.request.value, t.env)
  }

  /** The past does not depend on the future. */
  lemma {:induction false} BeforePrefix(k: Setting, a: Agent, ts: seq<Turn>, us: seq<Turn>, n: nat)
    requires n <= |ts| && n <= |us| && forall m :: 0 <= m < n ==> ts[m] == us[m]
    ensures Before(k, a, ts, n) == Before(k, a, us, n)
  {
    hide Next;
    if n > 0 {
      BeforePrefix(k, a, ts, us, n - 1);
    }
  }

  lemma StopHere(k: Setting, a: Agent, ts: seq<Turn>, i: nat)
    requires i < |ts| && !Alive(Before(k, a, ts, i), ts[i])
    ensures ReplyAt(k, a, ts, i) == None
  {
  }
}
