/**
 The client side (src/ipc.cpp, class IpcClient), and the end-to-end claim: asking the agent is
 the same as calling the service.
 */
module AgentCalls {
  import opened Prelude
  import opened Endian
  import opened Slices
  import opened Vaults
  import opened Storage
  import opened VaultServices
  import opened Totp
  import opened Wire
  import opened Agents
  import Fuzzy

  datatype EntryData = EntryData(service: bytes, username: bytes, password: bytes, secret: bytes)

  /** What the caller of an `IpcClient` method sees; an error is its text. */
  datatype Answer =
    | Gotten(entry: Result<EntryData, bytes>)
    | Done(result: Result<(), bytes>)
    | Listed(rows: seq<(bytes, bytes)>)
    | Coded(code: Result<Code, bytes>)

  // ---------------------------------------------------------------------------------
  // Requests.
  // ---------------------------------------------------------------------------------

  function Encode(r: Request): Packet {
    match r
    case Get(s) => Packet(GET_ENTRY, Str(s))
    case Add(s, u, p, t) => Packet(ADD_ENTRY, Str(s) + (Str(u) + (Str(p) + Str(t))))
    case Delete(s) => Packet(DELETE_ENTRY, Str(s))
    case List(q) => Packet(LIST_ENTRIES, Str(q))
    case GetCode(s) => Packet(GET_TOTP, Str(s))
  }

  lemma FourStrings(buf: bytes, s: bytes, u: bytes, p: bytes, t: bytes)
    requires buf == Str(s) + (Str(u) + (Str(p) + Str(t))) && |buf| < 0x1_0000_0000
    ensures var o1 := 4 + |s|; var o2 := o1 + 4 + |u|; var o3 := o2 + 4 + |p|; var o4 := o3 + 4 + |t|;
      && Extract(buf, 0) == Extracted(o1, Some(s)) && Extract(buf, o1) == Extracted(o2, Some(u))
      && Extract(buf, o2) == Extracted(o3, Some(p)) && Extract(buf, o3) == Extracted(o4, Some(t))
  {
    hide Str, Extract, Stands;
    StandsWhole(buf);
    StandsSplit(buf, 0, Str(s), Str(u) + (Str(p) + Str(t)));
    StandsSplit(buf, 4 + |s|, Str(u), Str(p) + Str(t));
    StandsSplit(buf, 4 + |s| + 4 + |u|, Str(p), Str(t));
    ExtractStr(buf, 0, s);
    ExtractStr(buf, 4 + |s|, u);
    ExtractStr(buf, 4 + |s| + 4 + |u|, p);
    ExtractStr(buf, 4 + |s| + 4 + |u| + 4 + |p|, t);
  }

  /** The server understands what the client meant. */
  lemma RequestRoundTrip(r: Request)
    requires Sendable(Encode(r))
    ensures IsData(Encode(r).opcode) && Agents.Decode(Encode(r)) == Some(r)
  {
    hide Str, Extract;
    var b := Encode(r).payload;
    match r {
      case Add(s, u, p, t) => FourStrings(b, s, u, p, t);
      case Get(s) => StandsWhole(b); ExtractStr(b, 0, s);
      case Delete(s) => StandsWhole(b); ExtractStr(b, 0, s);
      case List(s) => StandsWhole(b); ExtractStr(b, 0, s);
      case GetCode(s) => StandsWhole(b); ExtractStr(b, 0, s);
    }
  }

  ghost predicate Fits32(r: Request) {
    match r
    case Add(s, u, p, t) =>
      |s| < 0x1_0000_0000 && |u| < 0x1_0000_0000 && |p| < 0x1_0000_0000 && |t| < 0x1_0000_0000
    case Get(s) => |s| < 0x1_0000_0000
    case Delete(s) => |s| < 0x1_0000_0000
    case List(q) => |q| < 0x1_0000_0000
    case GetCode(s) => |s| < 0x1_0000_0000
  }

  /**
   The server takes a packet for a request exactly if it has the opcode and begins with the strings of
   that request; a listing without a string is one without a query. Anything else is malformed.
   */
  lemma DecodeExactly(p: Packet, r: Request)
    requires IsData(p.opcode) && Fits32(r)
    ensures Agents.Decode(p) == Some(r) <==>
      && p.opcode == Encode(r).opcode
      && (Stands(p.payload, 0, Encode(r).payload) || (r == List([]) && Extract(p.payload, 0).value == None))
  {
    hide Str, Extract, Stands;
    match r {
      case Add(s, u, pw, t) =>
        AddDecodes(p.payload, s, u, pw, t);
      case Get(s) => ExtractExactly(p.payload, 0, s);
      case Delete(s) => ExtractExactly(p.payload, 0, s);
      case List(q) => ExtractExactly(p.payload, 0, q);
      case GetCode(s) => ExtractExactly(p.payload, 0, s);
    }
  }

  lemma AddDecodes(buf: bytes, s: bytes, u: bytes, p: bytes, t: bytes)
    requires Fits32(Add(s, u, p, t))
    ensures DecodeAdd(buf) == Some(Add(s, u, p, t)) <==> Stands(buf, 0, Str(s) + (Str(u) + (Str(p) + Str(t))))
  {
    hide Str, Extract, Stands;
    var o1, o2, o3 := 4 + |s|, 8 + |s| + |u|, 12 + |s| + |u| + |p|;
    ExtractExactly(buf, 0, s);
    ExtractExactly(buf, o1, u);
    ExtractExactly(buf, o2, p);
    ExtractExactly(buf, o3, t);
    if Stands(buf, 0, Str(s) + (Str(u) + (Str(p) + Str(t)))) {
      StandsSplit(buf, 0, Str(s), Str(u) + (Str(p) + Str(t)));
      StandsSplit(buf, o1, Str(u), Str(p) + Str(t));
      StandsSplit(buf, o2, Str(p), Str(t));
    }
    if DecodeAdd(buf) == Some(Add(s, u, p, t)) {
      StandsJoin(buf, o2, Str(p), Str(t));
      StandsJoin(buf, o1, Str(u), Str(p) + Str(t));
      StandsJoin(buf, 0, Str(s), Str(u) + (Str(p) + Str(t)));
    }
  }

  /** The bytes of a small request of each kind, by the numbers of the protocol. */
  lemma RequestExamples()
    ensures Frame(Encode(Get([0x73]))) == [0, 0, 0, 5] + [0x05] + ([0, 0, 0, 1] + [0x73])
    ensures Frame(Encode(Delete([0x73]))) == [0, 0, 0, 5] + [0x07] + ([0, 0, 0, 1] + [0x73])
    ensures Frame(Encode(List([0x73]))) == [0, 0, 0, 5] + [0x08] + ([0, 0, 0, 1] + [0x73])
    ensures Frame(Encode(GetCode([0x73]))) == [0, 0, 0, 5] + [0x09] + ([0, 0, 0, 1] + [0x73])
    ensures Frame(Encode(Add([0x73], [0x75], [0x70, 0x77], [0x74])))
         == [0, 0, 0, 21] + [0x06] + (([0, 0, 0, 1] + [0x73]) + (([0, 0, 0, 1] + [0x75])
              + (([0, 0, 0, 2] + [0x70, 0x77]) + ([0, 0, 0, 1] + [0x74]))))
  {
    SmallBe(1);
    SmallBe(2);
    SmallBe(5);
    SmallBe(21);
    hide Be, Low32;
  }

  lemma SmallBe(n: byte)
    ensures Be(n, 4) == [0, 0, 0, n] && Low32(n) == n
  {
    assert Be(0, 3) == [0, 0, 0];
  }

  // ---------------------------------------------------------------------------------
  // Replies. The client's decoders go on with empty strings where a field is missing.
  // ---------------------------------------------------------------------------------

  function Lenient(buf: bytes, offset: nat): (r: (bytes, nat)) {
    var e := Extract(buf, offset);
    (if e.value.Some? then e.value.value else [], e.offset)
  }

  function ReadEntryData(buf: bytes): EntryData {
    var (s, o1) := Lenient(buf, 0);
    var (u, o2) := Lenient(buf, o1);
    var (p, o3) := Lenient(buf, o2);
    var (t, _) := Lenient(buf, o3);
    EntryData(s, u, p, t)
  }

  /** Up to `n` rows from `offset`, stopping where one is incomplete. */
  function ReadRows(buf: bytes, offset: nat, n: nat): (rows: seq<(bytes, bytes)>)
    decreases n
  {
    if n == 0 then []
    else
      match Extract(buf, offset)
      case Extracted(_, None) => []
      case Extracted(o1, Some(s)) =>
        match Extract(buf, o1)
        case Extracted(_, None) => []
        case Extracted(o2, Some(u)) => [(s, u)] + ReadRows(buf, o2, n - 1)
  }

  function ReadListing(p: Packet): seq<(bytes, bytes)> {
    if p.opcode != OK || |p.payload| < 4 then [] else ReadRows(p.payload, 4, FromBe(p.payload[..4]))
  }

  function ReadCode(buf: bytes): Code {
    var (digits, o) := Lenient(buf, 0);
    if o + 4 <= |buf| then FromBeBound(buf[o..o + 4]); Widths(); Code(digits, FromBe(buf[o..o + 4]))
    else Code(digits, 0)
  }

  const DISCONNECTED: string := "Agent disconnected."

  function Disconnected(r: Request): Answer {
    match r
    case Get(_) => Gotten(Err(Ascii(DISCONNECTED)))
    case Add(_, _, _, _) => Done(Err(Ascii(DISCONNECTED)))
    case Delete(_) => Done(Err(Ascii(DISCONNECTED)))
    case List(_) => Listed([])
    case GetCode(_) => Coded(Err(Ascii(DISCONNECTED)))
  }

  function Understand(r: Request, reply: Packet): Answer {
    var text := Lenient(reply.payload, 0).0;
    match r
    case Get(_) => Gotten(if reply.opcode == OK then Ok(ReadEntryData(reply.payload)) else Err(text))
    case Add(_, _, _, _) => Done(if reply.opcode == OK then Ok(()) else Err(text))
    case Delete(_) => Done(if reply.opcode == OK then Ok(()) else Err(text))
    case List(_) => Listed(ReadListing(reply))
    case GetCode(_) => Coded(if reply.opcode == OK then Ok(ReadCode(reply.payload)) else Err(text))
  }

  datatype AgentStatus = AgentStatus(unlocked: bool, remaining: nat, total: nat)

  /** The client's reading of a STATUS reply. */
  function ReadStatus(p: Packet): Option<AgentStatus> {
    if |p.payload| < 9 then None
    else Some(AgentStatus(p.payload[0] != 0, FromBe(p.payload[1..5]), FromBe(p.payload[5..9])))
  }

  /** The client learns whether the session is open, the seconds left, and how many entries there are. */
  lemma StatusRoundTrip(k: Setting, a: Agent, env: Env)
    requires a.service.Some? ==> |a.service.value.entries| < 0x1_0000_0000
    ensures ReadStatus(Handle(k, a, Packet(STATUS, []), env).1)
         == Some(AgentStatus(a.service.Some?, SecondsLeft(k, a, env.at),
                             if a.service.Some? then |a.service.value.entries| else 0))
  {
    hide Handle, FromBe, SecondsLeft;
    StatusOutcome(k, a, env);
  }

  // ---------------------------------------------------------------------------------
  // The direct call.
  // ---------------------------------------------------------------------------------

  function Pairs(es: Entries): seq<(bytes, bytes)> {
    if es == [] then [] else [(es[0].service, es[0].username)] + Pairs(es[1..])
  }

  function Told<T>(k: Setting, r: Result<T, Failure>): Result<T, bytes> {
    match r
    case Ok(v) => Ok(v)
    case Err(e) => Err(k.what(e))
  }

  /** What the service does and returns, in the caller's terms. */
  function Direct(k: Setting, ram: Ram, files: Files, r: Request, env: Env): (Ram, Files, Answer) {
    match r
    case Get(s) =>
      (ram, files, match Find(ram.entries, s)
        case Some(e) => Gotten(Ok(EntryData(e.service, e.username, e.password, e.totpSecret)))
        case None => Gotten(Err(Ascii("Entry not found."))))
    case Add(s, u, p, t) =>
      var o := Added(k.crypto, k.path, ram, files, Entry(s, u, p, t, env.now), env.save);
      (o.ram, o.files, Done(Told(k, o.result)))
    case Delete(s) =>
      var o := Deleted(k.crypto, k.path, ram, files, s, env.save);
      (o.ram, o.files, Done(Told(k, o.result)))
    case List(_) => (ram, files, Listed(Pairs(env.listing)))
    case GetCode(s) => (ram, files, Coded(Told(k, GetTotp(k.hmac, ram, s, env.now))))
  }

  lemma SaidIsHeard(status: byte, text: bytes)
    requires Sendable(Say(status, text))
    ensures Lenient(Say(status, text).payload, 0).0 == text
  {
    hide Str, Extract;
    StandsWhole(Str(text));
    ExtractStr(Str(text), 0, text);
  }

  lemma {:induction false} RowsRoundTrip(buf: bytes, offset: nat, es: Entries)
    requires Stands(buf, offset, Rows(es)) && |buf| < 0x1_0000_0000
    ensures ReadRows(buf, offset, |es|) == Pairs(es)
    decreases |es|
  {
    hide Str, Extract, Stands;
    if es != [] {
      var s, u := es[0].service, es[0].username;
      RowsLength(es);
      StandsSplit(buf, offset, Str(s), Str(u) + Rows(es[1..]));
      StandsSplit(buf, offset + 4 + |s|, Str(u), Rows(es[1..]));
      StandsBound(buf, offset, Rows(es));
      ExtractStr(buf, offset, s);
      ExtractStr(buf, offset + 4 + |s|, u);
      RowsRoundTrip(buf, offset + 4 + |s| + 4 + |u|, es[1..]);
    }
  }

  lemma StandsBound(buf: bytes, offset: nat, part: bytes)
    requires Stands(buf, offset, part)
    ensures offset + |part| <= |buf|
  {
  }

  lemma {:induction false} RowsLength(es: Entries)
    ensures |Rows(es)| >= 8 * |es|
    ensures es != [] ==> |Rows(es)| >= |es[0].service| + |es[0].username|
  {
    hide Str;
    if es != [] {
      RowsLength(es[1..]);
    }
  }

  lemma Word(v: u32)
    ensures FromBe(Be(v, 4)) == v
  {
    Widths();
    BeRoundTrip(v, 4);
  }

  lemma ListingRoundTrip(es: Entries)
    requires Sendable(Packet(OK, Listing(es)))
    ensures ReadListing(Packet(OK, Listing(es))) == Pairs(es)
  {
    hide Be, FromBe, Rows, ReadRows, Pairs, Stands, Low32;
    RowsLength(es);
    Low32Exact(|es|);
    var n: u32, rows := |es|, Rows(es);
    CountedRows(n, rows);
    var b := Be(n, 4) + rows;
    assert |b| < 0x1_0000_0000;
    RowsRoundTrip(b, 4, es);
  }

  lemma CountedRows(n: u32, rows: bytes)
    ensures var b := Be(n, 4) + rows; FromBe(b[..4]) == n && Stands(b, 4, rows)
  {
    hide Be, FromBe;
    Word(n);
    var b := Be(n, 4) + rows;
    assert b[..4] == Be(n, 4) && b[4..4 + |rows|] == rows;
  }

  lemma CodeRoundTrip(code: Code)
    requires Sendable(Packet(OK, Str(code.digits) + Be(code.remaining, 4)))
    ensures ReadCode(Str(code.digits) + Be(code.remaining, 4)) == code
  {
    hide Be, FromBe, Str, Extract;
    Word(code.remaining);
    var b := Str(code.digits) + Be(code.remaining, 4);
    StandsWhole(b);
    StandsSplit(b, 0, Str(code.digits), Be(code.remaining, 4));
    ExtractStr(b, 0, code.digits);
    assert b[4 + |code.digits|..4 + |code.digits| + 4] == Be(code.remaining, 4);
  }

  lemma EntryRoundTrip(s: bytes, u: bytes, p: bytes, t: bytes)
    requires |Str(s) + (Str(u) + (Str(p) + Str(t)))| < 0x1_0000_0000
    ensures ReadEntryData(Str(s) + (Str(u) + (Str(p) + Str(t)))) == EntryData(s, u, p, t)
  {
    hide Str, Extract;
    FourStrings(Str(s) + (Str(u) + (Str(p) + Str(t))), s, u, p, t);
  }

  lemma ServedIsDirect(k: Setting, a: Agent, r: Request, env: Env)
    requires a.service.Some? && Sendable(Serve(k, a, r, env).1)
    ensures Understand(r, Serve(k, a, r, env).1) == Direct(k, a.service.value, a.files, r, env).2
  {
    hide Str, Extract, Lenient, Ascii, Added, Deleted, GetTotp, Find, Listing, Be, ReadListing, ReadCode,
        ReadEntryData, Pairs;
    var reply := Serve(k, a, r, env).1;
    var ram := a.service.value;
    match r {
      case Get(s) =>
        var e := Find(ram.entries, s);
        if e.Some? {
          EntryRoundTrip(e.value.service, e.value.username, e.value.password, e.value.totpSecret);
        } else {
          SaidIsHeard(NOT_FOUND, Ascii("Entry not found."));
        }
      case Add(s, u, p, t) =>
        var o := Added(k.crypto, k.path, ram, a.files, Entry(s, u, p, t, env.now), env.save);
        match o.result {
          case Ok(v) => assert v == ();
          case Err(e) => SaidIsHeard(ERROR, k.what(e));
        }
      case Delete(s) =>
        var o := Deleted(k.crypto, k.path, ram, a.files, s, env.save);
        match o.result {
          case Ok(v) => assert v == ();
          case Err(e) => SaidIsHeard(ERROR, k.what(e));
        }
      case List(_) => ListingRoundTrip(env.listing);
      case GetCode(s) =>
        var code := GetTotp(k.hmac, ram, s, env.now);
        if code.Ok? {
          CodeRoundTrip(code.value);
        } else {
          SaidIsHeard(ERROR, k.what(code.error));
        }
    }
  }

  function RowsSize(rows: seq<(bytes, bytes)>): nat {
    if rows == [] then 0 else 8 + |rows[0].0| + |rows[0].1| + RowsSize(rows[1..])
  }

  /** How many bytes a result takes on the wire. */
  function AnswerSize(answer: Answer): nat {
    match answer
    case Gotten(Ok(e)) => 16 + |e.service| + |e.username| + |e.password| + |e.secret|
    case Gotten(Err(text)) => 4 + |text|
    case Done(Ok(_)) => 0
    case Done(Err(text)) => 4 + |text|
    case Listed(rows) => 4 + RowsSize(rows)
    case Coded(Ok(code)) => 8 + |code.digits|
    case Coded(Err(text)) => 4 + |text|
  }

  lemma {:induction false} RowsAreSized(es: Entries)
    ensures |Rows(es)| == RowsSize(Pairs(es))
  {
    hide Str;
    if es != [] {
      RowsAreSized(es[1..]);
      assert Pairs(es)[1..] == Pairs(es[1..]);
    }
  }

  /** The reply is as long as the direct call's result says. */
  lemma ReplySize(k: Setting, a: Agent, r: Request, env: Env)
    requires a.service.Some?
    ensures |Serve(k, a, r, env).1.payload| == AnswerSize(Direct(k, a.service.value, a.files, r, env).2)
  {
    hide Str, Ascii, Added, Deleted, GetTotp, Find, Rows, Be, RowsSize, Pairs, Low32;
    if r.List? {
      RowsAreSized(env.listing);
    }
  }

  /** The whole way through the agent: encode, handle, and decode the reply if it gets through. */
  function ViaAgent(k: Setting, a: Agent, r: Request, env: Env): (Agent, Answer) {
    var (b, reply) := Handle(k, a, Encode(r), env);
    (b, if Sendable(reply) then Understand(r, reply) else Disconnected(r))
  }

  /**
   Through the agent equals direct: on an unlocked session, a request of at most 2 MiB leaves the
   vault in memory and on disk exactly as the direct call does, and gives exactly its result if
   that result takes at most 2 MiB; if it takes more, the client reports a lost connection, or an
   empty listing, instead, although the operation took place.
   */
  lemma AgentEqualsDirect(k: Setting, a: Agent, r: Request, env: Env)
    requires a.service.Some? && Sendable(Encode(r))
    ensures var (b, answer) := ViaAgent(k, a, r, env);
      var (ram, files, result) := Direct(k, a.service.value, a.files, r, env);
      && b.service == Some(ram) && b.files == files && b.running == a.running
      && answer == if AnswerSize(result) <= MAX_PAYLOAD then result else Disconnected(r)
  {
    hide Encode, Agents.Decode, Understand, Added, Deleted, GetTotp, Find, Listing, Be, Ascii, Str, AnswerSize;
    RequestRoundTrip(r);
    var open := a.(lastActivity := env.at);
    ReplySize(k, open, r, env);
    if Sendable(Serve(k, open, r, env).1) {
      ServedIsDirect(k, open, r, env);
    }
  }

  /** An entry that the service returns and the agent cannot deliver: its password has 2 MiB. */
  lemma LongEntryIsLost(k: Setting, a: Agent, env: Env)
    requires a.service.Some? && a.service.value.entries == [Entry([0x78], [0x79], seq(MAX_PAYLOAD, _ => 65), [], 1)]
    ensures Direct(k, a.service.value, a.files, Get([0x78]), env).2.entry.Ok?
    ensures ViaAgent(k, a, Get([0x78]), env).1 == Gotten(Err(Ascii(DISCONNECTED)))
  {
    hide ViaAgent, Ascii, DISCONNECTED;
    AgentEqualsDirect(k, a, Get([0x78]), env);
  }

  /**
   A search through the agent: the client gets service and user name of exactly the entries, with
   their multiplicity, of whose service the query is a case-insensitive subsequence, best first.
   */
  lemma SearchThroughAgent(k: Setting, a: Agent, q: bytes, env: Env)
    requires a.service.Some? && Sendable(Encode(List(q))) && q != []
    requires ListsWell(a, Encode(List(q)), env) && 4 + RowsSize(Pairs(env.listing)) <= MAX_PAYLOAD
    ensures var es, found := a.service.value.entries, env.listing;
      && ViaAgent(k, a, List(q), env).1 == Listed(Pairs(found))
      && (forall e :: multiset(found)[e] == if Fuzzy.Subsequence(q, e.service) then multiset(es)[e] else 0)
      && (forall i, j :: 0 <= i < j < |found| ==>
            Fuzzy.Score(q, found[i].service) >= Fuzzy.Score(q, found[j].service))
  {
    hide Handle, ViaAgent, Fuzzy.Score, Fuzzy.Subsequence, Fuzzy.Matching, Pairs, Str, Extract;
    AgentEqualsDirect(k, a, List(q), env);
    RequestRoundTrip(List(q));
    assert Query(Encode(List(q))) == q;
    var es, found := a.service.value.entries, env.listing;
    forall e: Entry ensures multiset(found)[e] == if Fuzzy.Subsequence(q, e.service) then multiset(es)[e] else 0 {
      Fuzzy.MatchingCounts(es, q, e);
    }
  }

  // ---------------------------------------------------------------------------------
  // Over sockets.
  // ---------------------------------------------------------------------------------

  /** The client's reading of a listing, row by row until one is incomplete. */
  method DecodeListing(p: Packet) returns (rows: seq<(bytes, bytes)>)
    ensures rows == ReadListing(p)
  {
    hide Extract;
    rows := [];
    if p.opcode != OK || |p.payload| < 4 {
      return;
    }
    var count, offset, i := FromBe(p.payload[..4]), 4, 0;
    while i < count
      invariant 0 <= i <= count
      invariant rows + ReadRows(p.payload, offset, count - i) == ReadListing(p)
    {
      var service := ExtractString(p.payload, offset);
      if service.value.None? {
        break;
      }
      var username := ExtractString(p.payload, service.offset);
      if username.value.None? {
        break;
      }
      rows := rows + [(service.value.value, username.value.value)];
      offset, i := username.offset, i + 1;
    }
  }

  /** How the kernel treats the two directions of one connection, at the sending and at the receiving end. */
  datatype Link = Link(requestOut: seq<IoEvent>, requestIn: seq<IoEvent>, replyOut: seq<IoEvent>, replyIn: seq<IoEvent>)

  ghost predicate Faultless(link: Link) {
    Failed !in link.requestOut && Failed !in link.requestIn && Failed !in link.replyOut && Failed !in link.replyIn
  }

  function Unsent(r: Request): Answer {
    match r
    case Get(_) => Gotten(Err(Ascii("Failed to send get request.")))
    case Add(_, _, _, _) => Done(Err(Ascii("Failed to send add request.")))
    case Delete(_) => Done(Err(Ascii("Failed to send delete request.")))
    case List(_) => Listed([])
    case GetCode(_) => Coded(Err(Ascii("Failed to send TOTP request.")))
  }

  /**
   One connection, from the client's request to its answer, over a kernel that sends and delivers
   with any early returns, interruptions and failures. The agent handles the request as sent or not
   at all; the client gets the agent's answer or is told that it did not. Without failures, and with
   a request within the limit, it is handled and answered. (Payloads of 4 GiB, whose length does not
   fit its prefix, are not covered.)
   */
  method Call(server: AgentServer, r: Request, env: Env, link: Link)
    returns (answer: Answer, ghost handled: bool, ghost done: Env)
    requires server.Valid()
    modifies server.Repr()
    ensures server.Valid() && fresh(server.Repr() - old(server.Repr())) && done == env.(listing := done.listing)
    ensures |Encode(r).payload| < 0x1_0000_0000 ==>
      && server.State()
         == (if handled then ViaAgent(server.setting, old(server.State()), r, done).0 else old(server.State()))
      && (handled ==> Sendable(Encode(r)) && ListsWell(old(server.State()), Encode(r), done))
      && (Faultless(link) && Sendable(Encode(r)) ==> handled)
    ensures
      && |Encode(r).payload| < 0x1_0000_0000
      && |Handle(server.setting, old(server.State()), Encode(r), done).1.payload| < 0x1_0000_0000
      ==>
      && (|| answer == Unsent(r) || answer == Disconnected(r)
          || (handled && answer == ViaAgent(server.setting, old(server.State()), r, done).1))
      && (Faultless(link) && Sendable(Encode(r)) ==>
            answer == ViaAgent(server.setting, old(server.State()), r, done).1)
  {
    hide Handle, Encode, Frame, Disconnected, Unsent, Completes, Understand, ListsWell;
    var request := Encode(r);
    if Failed !in link.requestOut {
      HarmlessScriptCompletes(5 + |request.payload|, link.requestOut);
    }
    var written, sent := WritePacket(request, link.requestOut);
    ghost var reply;
    var out;
    handled, reply, out, done := Attend(server, request, sent, env, link);
    if !written {
      answer := Unsent(r);
      return;
    }
    answer := Conclude(r, reply, out, link.replyIn);
  }

  /** The agent's end of a connection on which a request, or a part of it, was sent. */
  method Attend(server: AgentServer, request: Packet, sent: bytes, env: Env, link: Link)
    returns (ghost handled: bool, ghost reply: Packet, out: bytes, ghost done: Env)
    requires server.Valid() && sent <= Frame(request)
    modifies server.Repr()
    ensures server.Valid() && fresh(server.Repr() - old(server.Repr())) && done == env.(listing := done.listing)
    ensures out <= Frame(reply) && (handled && Failed !in link.replyOut ==> out == Frame(reply))
    ensures Failed !in link.requestIn && sent == Frame(request) && Sendable(request) ==> handled
    ensures !handled ==> server.State() == old(server.State()) && out == [] && reply == Packet(0, [])
    ensures handled && |request.payload| < 0x1_0000_0000 ==>
      && Sendable(request) && ListsWell(old(server.State()), request, done)
      && (server.State(), reply) == Handle(server.setting, old(server.State()), request, done)
  {
    hide Handle, Frame, Completes, ListsWell;
    var p := Received(request, sent, link.requestIn);
    handled, done := p.Some?, env;
    if p.None? {
      reply, out := Packet(0, []), [];
      return;
    }
    var resp;
    resp, done := server.HandleClient(p.value, env);
    if Failed !in link.replyOut {
      HarmlessScriptCompletes(5 + |resp.payload|, link.replyOut);
    }
    var replied;
    replied, out := WritePacket(resp, link.replyOut);
    reply := resp;
  }

  /** The client's end, once the request is out. */
  method Conclude(r: Request, ghost reply: Packet, out: bytes, script: seq<IoEvent>) returns (answer: Answer)
    requires out <= Frame(reply)
    ensures |reply.payload| < 0x1_0000_0000 ==>
      && (answer == Disconnected(r) || (out == Frame(reply) && Sendable(reply) && answer == Understand(r, reply)))
      && (Failed !in script && out == Frame(reply) && Sendable(reply) ==> answer == Understand(r, reply))
  {
    hide Frame, Disconnected, Understand;
    var q := Received(reply, out, script);
    if q.None? {
      return Disconnected(r);
    }
    if r.List? {
      var rows := DecodeListing(q.value);
      ListIsUnderstood(r, q.value);
      return Listed(rows);
    }
    answer := Understand(r, q.value);
  }

  lemma ListIsUnderstood(r: Request, p: Packet)
    requires r.List?
    ensures Understand(r, p) == Listed(ReadListing(p))
  {
  }

  /** The other end of a connection on which a packet, or a part of it, was sent. */
  method Received(ghost p: Packet, sent: bytes, script: seq<IoEvent>) returns (q: Option<Packet>)
    requires sent <= Frame(p)
    ensures q.Some? && |p.payload| < 0x1_0000_0000 ==> q == Some(p) && sent == Frame(p) && Sendable(p)
    ensures Failed !in script && sent == Frame(p) && Sendable(p) ==> q == Some(p)
  {
    hide Frame;
    var socket := new Socket(sent, script);
    assert Frame(p) == Frame(p) + [];
    if sent == Frame(p) && Sendable(p) {
      assert BeginsWith(sent, p);
    }
    var ok, r := socket.ReadPacket();
    if ok && |p.payload| < 0x1_0000_0000 {
      var rest := Frame(p)[|sent|..];
      assert Frame(r) + (socket.incoming + rest) == sent + rest == Frame(p);
      assert BeginsWith(Frame(p), r);
      if !Sendable(p) {
        OverlongIsRejected(p, r);
      }
      FramingIsUnambiguous(r, socket.incoming + rest, p, []);
    }
    q := if ok then Some(r) else None;
  }
}
