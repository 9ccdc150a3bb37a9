/**
 The strength worker: `EntropyEvaluator::evaluate` in the parent (src/entropy_evaluator.cpp) and
 the process it starts (src/entropy_worker_main.cpp).

 What the kernel answers is given: one `Round` for every turn of the poll loop and one `Wait` for
 every non-blocking `waitpid` that happens before the five-second deadline. Both lists are finite
 because the deadline comes; when a list is used up, the deadline has passed.
 */
module Workers {
  import opened Prelude
  import opened Endian
  import VaultFormat

  // ---------------------------------------------------------------------------------
  // The 21-byte answer.
  // ---------------------------------------------------------------------------------

  type i32 = x: int | -0x8000_0000 <= x < 0x8000_0000

  /** The two doubles are carried by their bits. */
  datatype Score = Score(score: i32, entropy: u64, crackTime: u64, weak: bool)

  /** `static_cast<uint32_t>` and back. */
  function Unsigned(x: i32): u32 {
    if x < 0 then x + 0x1_0000_0000 else x
  }

  function Signed(x: u32): i32 {
    if x < 0x8000_0000 then x else x - 0x1_0000_0000
  }

  function EncodeScore(s: Score): (b: bytes)
    ensures |b| == 21
  {
    Le(Unsigned(s.score), 4) + Le(s.entropy, 8) + Le(s.crackTime, 8) + [if s.weak then 1 else 0]
  }

  function Word(b: bytes): u64
    requires |b| <= 8
  {
    FromLeBound(b);
    WordFits(|b|);
    FromLe(b)
  }

  lemma WordFits(k: nat)
    requires k <= 8
    ensures Pow256(k) <= 0x1_0000_0000_0000_0000
  {
    Widths();
    PowMonotone(k, 8);
  }

  lemma {:induction false} PowMonotone(k: nat, n: nat)
    requires k <= n
    ensures Pow256(k) <= Pow256(n)
  {
    if k < n {
      PowMonotone(k, n - 1);
    }
  }

  function DecodeScore(b: bytes): Score
    requires |b| == 21
  {
    FromLeBound(b[..4]);
    Widths();
    Score(Signed(FromLe(b[..4])), Word(b[4..12]), Word(b[12..20]), b[20] != 0)
  }

  /** The parent reads exactly the score that the worker wrote. */
  lemma ScoreRoundTrip(s: Score)
    ensures DecodeScore(EncodeScore(s)) == s
  {
    hide Le, FromLe, Pow256;
    Widths();
    LeRoundTrip(Unsigned(s.score), 4);
    LeRoundTrip(s.entropy, 8);
    LeRoundTrip(s.crackTime, 8);
    var b := EncodeScore(s);
    assert b[..4] == Le(Unsigned(s.score), 4);
    assert b[4..12] == Le(s.entropy, 8);
    assert b[12..20] == Le(s.crackTime, 8);
  }

  /** The tail of `main`: the answer is assembled field by field. */
  method WriteScore(s: Score) returns (wire: bytes)
    ensures wire == EncodeScore(s)
  {
    hide Le;
    var buffer := new VaultFormat.Buffer();
    buffer.WriteUint32(Unsigned(s.score));
    buffer.WriteUint64(s.entropy);
    buffer.WriteUint64(s.crackTime);
    wire := buffer.data + [if s.weak then 1 else 0];
  }

  /** The tail of `evaluate`. */
  method ReadScore(wire: bytes) returns (s: Score)
    requires |wire| == 21
    ensures s == DecodeScore(wire)
  {
    hide FromLe, Pow256;
    var score := VaultFormat.ReadUint32(wire, 0);
    var entropy := VaultFormat.ReadUint64(wire, 4);
    var crackTime := VaultFormat.ReadUint64(wire, 12);
    assert wire[0..4] == wire[..4];
    s := Score(Signed(score.value), entropy.value, crackTime.value, wire[20] != 0);
  }

  // ---------------------------------------------------------------------------------
  // The worker.
  // ---------------------------------------------------------------------------------

  /** The zxcvbn library: bits of the entropy of a C string, comparison with a number, crack time. */
  datatype Rater = Rater(entropy: bytes -> u64, below: (u64, nat) -> bool, crackTime: u64 -> u64)

  function Rate(rater: Rater, password: bytes): Score {
    var e := rater.entropy(CStr(password));
    var score :=
      if rater.below(e, 10) then 0
      else if rater.below(e, 20) then 1
      else if rater.below(e, 27) then 2
      else if rater.below(e, 33) then 3
      else 4;
    Score(score, e, rater.crackTime(e), score < 3)
  }

  /**
   The score of a rating by the thresholds 10, 20, 27 and 33 bits, for a comparison that is one; weak
   is what has less than 27 bits. Only the part before the first NUL is rated.
   */
  lemma RateMeaning(rater: Rater, password: bytes)
    requires forall e, m, n :: m <= n && rater.below(e, m) ==> rater.below(e, n)
    ensures var (r, e) := (Rate(rater, password), Rate(rater, password).entropy);
      && 0 <= r.score <= 4
      && (r.score >= 1 <==> !rater.below(e, 10)) && (r.score >= 2 <==> !rater.below(e, 20))
      && (r.score >= 3 <==> !rater.below(e, 27)) && (r.score >= 4 <==> !rater.below(e, 33))
      && (r.weak <==> rater.below(e, 27))
      && r.crackTime == rater.crackTime(e)
    ensures 0 !in password ==> Rate(rater, password).entropy == rater.entropy(password)
    ensures forall tail :: Rate(rater, password + [0] + tail) == Rate(rater, password)
  {
    CStrMeaning(password);
    forall tail ensures CStr(password + [0] + tail) == CStr(password) {
      CStrStops(password, tail);
    }
  }

  lemma {:induction false} CStrStops(s: bytes, tail: bytes)
    ensures CStr(s + [0] + tail) == CStr(s)
  {
    if s != [] {
      CStrStops(s[1..], tail);
      assert (s + [0] + tail)[1..] == s[1..] + [0] + tail;
    }
  }

  /** How a worker ends: its exit code and everything it wrote. */
  datatype Run = Run(exit: byte, output: bytes)

  /**
   The worker on an input stream that ends after `input`. `dictionary`: the dictionary was found.
   `wrote`: how many bytes of the answer went out before a write failed, if one did.
   */
  function WorkerMain(input: bytes, rater: Rater, dictionary: bool, wrote: Option<nat>): Run {
    if !dictionary then Run(2, [])
    else if |input| < 4 || FromLe(input[..4]) == 0 || FromLe(input[..4]) > 4096 then Run(3, [])
    else if |input| - 4 < FromLe(input[..4]) then Run(4, [])
    else
      var answer := EncodeScore(Rate(rater, input[4..4 + FromLe(input[..4])]));
      match wrote
      case None => Run(0, answer)
      case Some(n) => Run(5, answer[..n % 21])
  }

  /** What the parent sends: a little-endian length, cut to 32 bits, and as many bytes. */
  function Message(password: bytes): (m: bytes)
    ensures |m| == 4 + Low32(|password|)
  {
    Le(Low32(|password|), 4) + password[..Low32(|password|)]
  }

  /** How the worker ends, by its exit codes; only with 0 it has answered in full. */
  lemma WorkerExits(input: bytes, rater: Rater, dictionary: bool, wrote: Option<nat>)
    ensures var run := WorkerMain(input, rater, dictionary, wrote);
      && (!dictionary ==> run == Run(2, []))
      && (dictionary && |input| < 4 ==> run == Run(3, []))
      && (dictionary && |input| >= 4 ==>
           var len := FromLe(input[..4]);
           && (len == 0 || len > 4096 ==> run == Run(3, []))
           && (0 < len <= 4096 && |input| < 4 + len ==> run == Run(4, []))
           && (0 < len <= 4096 && |input| >= 4 + len ==>
                && run.output <= EncodeScore(Rate(rater, input[4..4 + len]))
                && run.exit == (if wrote.None? then 0 else 5)
                && (run.exit == 0 <==> |run.output| == 21)))
  {
    hide FromLe, EncodeScore, Rate;
  }

  /** The bytes of a small message and of an answer. */
  lemma MessageExample()
    ensures Message([0x70, 0x77]) == [2, 0, 0, 0] + [0x70, 0x77]
    ensures EncodeScore(Score(4, 1, 2, true))
         == [4, 0, 0, 0] + [1, 0, 0, 0, 0, 0, 0, 0] + [2, 0, 0, 0, 0, 0, 0, 0] + [1]
  {
    LeSmall(2, 4);
    LeSmall(4, 4);
    LeSmall(1, 8);
    LeSmall(2, 8);
    Low32Exact(2);
    hide Le, Low32;
    assert Le(2, 4) == [2, 0, 0, 0] && Le(4, 4) == [4, 0, 0, 0];
    assert Le(1, 8) == [1, 0, 0, 0, 0, 0, 0, 0] && Le(2, 8) == [2, 0, 0, 0, 0, 0, 0, 0];
    var password: bytes := [0x70, 0x77];
    assert password[..2] == password;
  }

  /**
   A worker that got any part of the message and exits with 0 got all of it, and answers with the
   rating of exactly the password. Passwords over 4096 bytes are never rated.
   */
  lemma WorkerRatesThePassword(password: bytes, input: bytes, rater: Rater, dictionary: bool, wrote: Option<nat>)
    requires input <= Message(password)
    ensures var run := WorkerMain(input, rater, dictionary, wrote);
      run.exit == 0 ==>
        && input == Message(password) && 0 < Low32(|password|) <= 4096
        && run.output == EncodeScore(Rate(rater, password[..Low32(|password|)]))
    ensures input == Message(password) && 0 < Low32(|password|) <= 4096 && dictionary && wrote.None? ==>
      WorkerMain(input, rater, dictionary, wrote).exit == 0
  {
    hide Le, FromLe, Low32, Pow256, Rate, EncodeScore;
    var n := Low32(|password|);
    Widths();
    LeRoundTrip(n, 4);
    if |input| >= 4 {
      assert input[..4] == Message(password)[..4] == Le(n, 4);
      if |input| - 4 >= n {
        assert input == Message(password);
        assert input[4..4 + n] == password[..n];
      }
    }
  }

  // ---------------------------------------------------------------------------------
  // The kernel's answers, and where they lead.
  // ---------------------------------------------------------------------------------

  datatype Io = Moved(n: nat) | Nothing | Retry | Broken

  datatype Poll = Interrupted | PollFailed | NothingReady | Ready(canWrite: bool, hungUp: bool, canRead: bool)

  datatype Round = Round(poll: Poll, write: Io, read: Io)

  datatype Status = Exited(code: byte) | Signalled

  datatype Wait = StillRunning | WaitInterrupted | WaitFailed | Collected(status: Status)

  datatype Start = FirstPipeFails | SecondPipeFails | ForkFails | Started

  /** `output`: all that the child writes. `lastWait`: the blocking `waitpid` after a kill collects the child. */
  datatype Env = Env(start: Start, rounds: seq<Round>, output: bytes, waits: seq<Wait>, lastWait: bool)

  /** What one `read` of at most `want > 0` bytes delivers. */
  function Delivered(n: nat, want: nat, left: bytes): (k: nat)
    ensures k <= want && k <= |left| && (want > 0 && left != [] ==> k > 0)
  {
    Min(n + 1, Min(want, |left|))
  }

  /** How the poll loop ends: with the whole answer, short of it, or by giving up on the child. */
  datatype Listening = Complete | Short | TimeUp | PollBroke

  predicate GivesUp(end: Listening) {
    end == TimeUp || end == PollBroke
  }

  function Listen(rounds: seq<Round>, want: nat, left: bytes): Listening {
    if want == 0 then Complete
    else if rounds == [] then TimeUp
    else
      var round := rounds[0];
      if round.poll == PollFailed then PollBroke
      else if round.poll == NothingReady then TimeUp
      else if round.poll == Interrupted || !round.poll.canRead then Listen(rounds[1..], want, left)
      else
        match round.read
        case Nothing => Short
        case Broken => Short
        case Retry => Listen(rounds[1..], want, left)
        case Moved(n) =>
          var k := Delivered(n, want, left);
          if k == 0 then Short else Listen(rounds[1..], want - k, left[k..])
  }

  /** The status that the second loop collects before the deadline, if it does. */
  function Await(waits: seq<Wait>): Option<Status> {
    if waits == [] then None
    else
      match waits[0]
      case StillRunning => Await(waits[1..])
      case WaitInterrupted => Await(waits[1..])
      case WaitFailed => None
      case Collected(status) => Some(status)
  }

  /** The parent kills the child on every path that does not see it exit in time. */
  predicate Killed(env: Env) {
    GivesUp(Listen(env.rounds, 21, env.output)) || Await(env.waits) == None
  }

  predicate Returns(env: Env) {
    Listen(env.rounds, 21, env.output) == Complete && Await(env.waits) == Some(Exited(0))
  }

  /** The `k`-th answer is the status, and before it the child only ran on or the call was interrupted. */
  ghost predicate CollectedAt(waits: seq<Wait>, k: nat, status: Status) {
    && k < |waits| && waits[k] == Collected(status)
    && forall m :: 0 <= m < k ==> waits[m] == StillRunning || waits[m] == WaitInterrupted
  }

  /** The second loop collects a status exactly if there is such an answer. */
  lemma {:induction false} AwaitMeaning(waits: seq<Wait>, status: Status)
    ensures Await(waits) == Some(status) <==> exists k: nat :: CollectedAt(waits, k, status)
  {
    if waits == [] {
      assert forall k: nat :: !CollectedAt(waits, k, status);
    } else if waits[0] == StillRunning || waits[0] == WaitInterrupted {
      AwaitMeaning(waits[1..], status);
      if Await(waits) == Some(status) {
        var k: nat :| CollectedAt(waits[1..], k, status);
        assert forall m :: 1 <= m < k + 1 ==> waits[m] == waits[1..][m - 1];
        assert CollectedAt(waits, k + 1, status);
      }
      if k: nat :| CollectedAt(waits, k, status) {
        assert forall m :: 0 <= m < k - 1 ==> waits[1..][m] == waits[m + 1];
        assert CollectedAt(waits[1..], k - 1, status);
      }
    } else {
      assert waits[0] == Collected(status) ==> CollectedAt(waits, 0, status);
    }
  }

  /** A turn of the poll loop that moves no byte of the answer and does not end the loop. */
  predicate Idles(round: Round) {
    round.poll == Interrupted || (round.poll.Ready? && (!round.poll.canRead || round.read == Retry))
  }

  /** After any idle turns, what the first other turn brings decides; without one the deadline does. */
  lemma {:induction false} AfterIdling(rounds: seq<Round>, k: nat, want: nat, left: bytes)
    requires want > 0 && k <= |rounds| && forall m :: 0 <= m < k ==> Idles(rounds[m])
    ensures k == |rounds| ==> Listen(rounds, want, left) == TimeUp
    ensures k < |rounds| && rounds[k].poll == NothingReady ==> Listen(rounds, want, left) == TimeUp
    ensures k < |rounds| && rounds[k].poll == PollFailed ==> Listen(rounds, want, left) == PollBroke
    ensures k < |rounds| && rounds[k].poll.Ready? && rounds[k].poll.canRead ==>
      && (rounds[k].read == Nothing || rounds[k].read == Broken ==> Listen(rounds, want, left) == Short)
      && (rounds[k].read.Moved? ==>
            var n := Delivered(rounds[k].read.n, want, left);
            Listen(rounds, want, left) == if n == 0 then Short else Listen(rounds[k + 1..], want - n, left[n..]))
  {
    if k > 0 {
      AfterIdling(rounds[1..], k - 1, want, left);
      assert k < |rounds| ==> rounds[1..][k..] == rounds[k + 1..];
    }
  }

  /** What is returned, and what kills the child, in terms of the exit that was seen. */
  lemma ReturnsExactly(env: Env)
    ensures Returns(env) <==>
      Listen(env.rounds, 21, env.output) == Complete && exists k: nat :: CollectedAt(env.waits, k, Exited(0))
    ensures Killed(env) <==>
      || Listen(env.rounds, 21, env.output) == TimeUp
      || Listen(env.rounds, 21, env.output) == PollBroke
      || !exists k: nat, status :: CollectedAt(env.waits, k, status)
  {
    hide Listen, Await, CollectedAt;
    AwaitMeaning(env.waits, Exited(0));
    if Await(env.waits).Some? {
      AwaitMeaning(env.waits, Await(env.waits).value);
    }
    if k: nat, status :| CollectedAt(env.waits, k, status) {
      AwaitMeaning(env.waits, status);
    }
  }

  // What the parent sends meanwhile.

  /** The write channel of one turn: how much is sent afterwards, and whether the pipe is still open. */
  function AfterFeed(round: Round, size: nat, done: nat, open: bool): (r: (nat, bool))
    requires round.poll.Ready? && done <= size
    ensures done <= r.0 <= size && (r.1 ==> open)
  {
    if !open || (!round.poll.canWrite && !round.poll.hungUp) then (done, open)
    else if !round.poll.canWrite || round.write == Broken then (done, false)
    else if round.write.Moved? then
      var d := done + Min(round.write.n + 1, size - done);
      (d, d < size)
    else (done, open)
  }

  /** How much of a message of `size` bytes is sent when the loop ends. */
  function Fed(rounds: seq<Round>, want: nat, left: bytes, size: nat, done: nat, open: bool): (n: nat)
    requires done <= size
    ensures done <= n <= size
  {
    if want == 0 || rounds == [] then done
    else
      var round := rounds[0];
      if round.poll == Interrupted then Fed(rounds[1..], want, left, size, done, open)
      else if !round.poll.Ready? then done
      else
        var (d, o) := AfterFeed(round, size, done, open);
        if !round.poll.canRead || round.read == Retry then Fed(rounds[1..], want, left, size, d, o)
        else if !round.read.Moved? then d
        else
          var k := Delivered(round.read.n, want, left);
          if k == 0 then d else Fed(rounds[1..], want - k, left[k..], size, d, o)
  }

  predicate Accepts(round: Round) {
    round.poll.Ready? && round.poll.canWrite && round.write.Moved?
  }

  function Acceptances(rounds: seq<Round>, k: nat): nat
    requires k <= |rounds|
  {
    if k == 0 then 0 else Acceptances(rounds[1..], k - 1) + if Accepts(rounds[0]) then 1 else 0
  }

  /**
   The whole message goes out, however the kernel splits it: before any answer and as long as the
   pipe does not break, as many turns that accept data as there are bytes are enough.
   */
  lemma {:induction false} PatienceDelivers(
      rounds: seq<Round>, k: nat, want: nat, left: bytes, size: nat, done: nat)
    requires want > 0 && k <= |rounds| && done < size && size - done <= Acceptances(rounds, k)
    requires forall m :: 0 <= m < k ==>
      Idles(rounds[m]) && (rounds[m].poll.Ready? ==>
        (rounds[m].poll.canWrite || !rounds[m].poll.hungUp) && rounds[m].write != Broken)
    ensures Fed(rounds, want, left, size, done, true) == size
  {
    var round := rounds[0];
    if round.poll == Interrupted {
      PatienceDelivers(rounds[1..], k - 1, want, left, size, done);
    } else {
      var (d, o) := AfterFeed(round, size, done, true);
      if d < size {
        PatienceDelivers(rounds[1..], k - 1, want, left, size, d);
      }
    }
  }

  /** Once the pipe is closed nothing more is sent. */
  lemma {:induction false} ClosedSendsNothing(rounds: seq<Round>, want: nat, left: bytes, size: nat, done: nat)
    requires done <= size
    ensures Fed(rounds, want, left, size, done, false) == done
  {
    if want > 0 && rounds != [] {
      var round := rounds[0];
      if round.poll == Interrupted || (round.poll.Ready? && (!round.poll.canRead || round.read == Retry)) {
        ClosedSendsNothing(rounds[1..], want, left, size, done);
      } else if round.poll.Ready? && round.read.Moved? {
        var k := Delivered(round.read.n, want, left);
        ClosedSendsNothing(rounds[1..], want - k, left[k..], size, done);
      }
    }
  }

  /** The loop completes only on a complete answer. */
  lemma {:induction false} CompleteHasAll(rounds: seq<Round>, want: nat, left: bytes)
    requires Listen(rounds, want, left) == Complete
    ensures want <= |left|
  {
    if want > 0 {
      var round := rounds[0];
      if round.poll == Interrupted || !round.poll.canRead || round.read == Retry {
        CompleteHasAll(rounds[1..], want, left);
      } else {
        var k := Delivered(round.read.n, want, left);
        CompleteHasAll(rounds[1..], want - k, left[k..]);
      }
    }
  }

  predicate Harmless(round: Round) {
    round.poll != PollFailed && round.poll != NothingReady && round.read != Broken && round.read != Nothing
  }

  function Offers(rounds: seq<Round>): nat {
    if rounds == [] then 0
    else Offers(rounds[1..]) + if rounds[0].poll.Ready? && rounds[0].poll.canRead && rounds[0].read.Moved? then 1 else 0
  }

  /**
   And it does complete on one, however the kernel splits it: if nothing fails, as many rounds that
   offer data as there are bytes are enough.
   */
  lemma {:induction false} PatienceCompletes(rounds: seq<Round>, want: nat, left: bytes)
    requires forall i :: 0 <= i < |rounds| ==> Harmless(rounds[i])
    requires want <= |left| && want <= Offers(rounds)
    ensures Listen(rounds, want, left) == Complete
  {
    if want > 0 {
      var round := rounds[0];
      if round.poll == Interrupted || !round.poll.canRead || round.read == Retry {
        PatienceCompletes(rounds[1..], want, left);
      } else {
        assert Harmless(rounds[0]);
        var k := Delivered(round.read.n, want, left);
        PatienceCompletes(rounds[1..], want - k, left[k..]);
      }
    }
  }

  // ---------------------------------------------------------------------------------
  // The parent.
  // ---------------------------------------------------------------------------------

  /** The four pipe ends that the parent opens. */
  datatype End = InRead | InWrite | OutRead | OutWrite

  datatype WorkerError = NoInputPipe | NoOutputPipe | NoFork | TimedOut | PollError | NotTerminated | BadAnswer

  /** The exception of a call that throws. */
  function ErrorOf(env: Env): WorkerError {
    match env.start
    case FirstPipeFails => NoInputPipe
    case SecondPipeFails => NoOutputPipe
    case ForkFails => NoFork
    case Started =>
      match Listen(env.rounds, 21, env.output)
      case TimeUp => TimedOut
      case PollBroke => PollError
      case _ => if Await(env.waits) == None then NotTerminated else BadAnswer
  }

  /** The pipe ends that were opened. */
  function EndsOpened(start: Start): multiset<End> {
    match start
    case FirstPipeFails => multiset{}
    case SecondPipeFails => multiset{InRead, InWrite}
    case _ => multiset{InRead, InWrite, OutRead, OutWrite}
  }

  /** What the parent has done: every `close`, `kill`, successful `waitpid`, and the bytes written. */
  class Parent {
    var closed: multiset<End>
    var kills: nat
    var reaps: nat
    var sent: bytes
    var inOpen: bool
    var outOpen: bool

    constructor ()
      ensures Fresh()
    {
      closed, kills, reaps, sent, inOpen, outOpen := multiset{}, 0, 0, [], false, false;
    }

    predicate Fresh()
      reads this
    {
      closed == multiset{} && kills == 0 && reaps == 0 && sent == [] && !inOpen && !outOpen
    }

    /** After the fork: every end is closed already or still held by the `PipeCloser`, never both. */
    ghost predicate Balanced()
      reads this`closed, this`inOpen, this`outOpen
    {
      closed + (if inOpen then multiset{InWrite} else multiset{}) + (if outOpen then multiset{OutRead} else multiset{})
      == EndsOpened(Started)
    }

    method Close(end: End)
      modifies this`closed
      ensures closed == old(closed) + multiset{end}
    {
      closed := closed + multiset{end};
    }

    /** The parent closes the child's ends and hands its own to the `PipeCloser`. */
    method Adopt()
      requires Fresh()
      modifies this`closed, this`inOpen, this`outOpen
      ensures Balanced() && inOpen && outOpen
    {
      Close(InRead);
      Close(OutWrite);
      inOpen, outOpen := true, true;
    }

    method CloseInput()
      requires Balanced() && inOpen
      modifies this`closed, this`inOpen
      ensures Balanced() && !inOpen
    {
      Close(InWrite);
      inOpen := false;
    }

    /** The destructor of `PipeCloser`. */
    method Destroy()
      requires Balanced()
      modifies this`closed, this`inOpen, this`outOpen
      ensures closed == EndsOpened(Started)
    {
      if inOpen {
        Close(InWrite);
        inOpen := false;
      }
      if outOpen {
        Close(OutRead);
        outOpen := false;
      }
    }

    /** `kill` and the blocking `waitpid`, whose result is not looked at. */
    method Kill(lastWait: bool)
      modifies this`kills, this`reaps
      ensures kills == old(kills) + 1 && reaps == old(reaps) + if lastWait then 1 else 0
    {
      kills := kills + 1;
      if lastWait {
        reaps := reaps + 1;
      }
    }

    /** The write channel of one turn of the loop. */
    method Feed(round: Round, message: bytes)
      requires Balanced() && round.poll.Ready?
      requires sent <= message && (inOpen ==> sent != message)
      modifies this`closed, this`inOpen, this`sent
      ensures Balanced() && sent <= message && (inOpen ==> sent != message)
      ensures old(sent) <= sent
      ensures (|sent|, inOpen) == AfterFeed(round, |message|, |old(sent)|, old(inOpen))
    {
      if inOpen && (round.poll.canWrite || round.poll.hungUp) {
        if round.poll.canWrite {
          match round.write {
            case Moved(n) =>
              var k := Min(n + 1, |message| - |sent|);
              sent := message[..|sent| + k];
              if |sent| >= |message| {
                CloseInput();
              }
            case Broken => CloseInput();
            case Nothing =>
            case Retry =>
          }
        } else {
          CloseInput();
        }
      }
    }

    /** The poll loop. On giving up the child has been killed; otherwise it has not been touched. */
    method Converse(message: bytes, env: Env) returns (end: Listening, buffer: bytes)
      requires Balanced() && outOpen && sent <= message && (inOpen ==> sent != message)
      modifies this
      ensures Balanced() && sent <= message
      ensures |sent| == Fed(env.rounds, 21, env.output, |message|, |old(sent)|, old(inOpen))
      ensures end == Listen(env.rounds, 21, env.output)
      ensures kills == old(kills) + if GivesUp(end) then 1 else 0
      ensures reaps == old(reaps) + if GivesUp(end) && env.lastWait then 1 else 0
      ensures buffer <= env.output && (end == Complete <==> |buffer| == 21)
    {
      hide Balanced, AfterFeed;
      buffer := [];
      var rounds, left := env.rounds, env.output;
      while |buffer| < 21
        invariant |buffer| <= 21 && buffer + left == env.output
        invariant Balanced() && sent <= message && (inOpen ==> sent != message)
        invariant kills == old(kills) && reaps == old(reaps)
        invariant Listen(rounds, 21 - |buffer|, left) == Listen(env.rounds, 21, env.output)
        invariant Fed(rounds, 21 - |buffer|, left, |message|, |sent|, inOpen)
               == Fed(env.rounds, 21, env.output, |message|, |old(sent)|, old(inOpen))
        decreases |rounds|
      {
        if rounds == [] {
          Kill(env.lastWait);
          return TimeUp, buffer;
        }
        var round := rounds[0];
        rounds := rounds[1..];
        if round.poll == Interrupted {
          continue;
        }
        if round.poll == PollFailed || round.poll == NothingReady {
          Kill(env.lastWait);
          return if round.poll == PollFailed then PollBroke else TimeUp, buffer;
        }
        Feed(round, message);
        if round.poll.canRead {
          match round.read {
            case Moved(n) =>
              var k := Delivered(n, 21 - |buffer|, left);
              if k == 0 {
                return Short, buffer;
              }
              assert left == left[..k] + left[k..];
              assert (buffer + left[..k]) + left[k..] == buffer + left;
              buffer, left := buffer + left[..k], left[k..];
            case Nothing => return Short, buffer;
            case Broken => return Short, buffer;
            case Retry =>
          }
        }
      }
      end := Complete;
    }

    /** The second loop, and the kill when the child does not exit in time. The child has seen the end of its input. */
    method Collect(env: Env) returns (status: Option<Status>)
      requires !inOpen
      modifies this`kills, this`reaps
      ensures status == Await(env.waits)
      ensures kills == old(kills) + if status == None then 1 else 0
      ensures reaps == old(reaps) + if status == None && !env.lastWait then 0 else 1
    {
      var waits := env.waits;
      status := None;
      while waits != []
        invariant status == None && Await(waits) == Await(env.waits)
        invariant kills == old(kills) && reaps == old(reaps)
        decreases |waits|
      {
        var wait := waits[0];
        waits := waits[1..];
        match wait {
          case Collected(s) =>
            reaps := reaps + 1;
            return Some(s);
          case WaitFailed => break;
          case StillRunning =>
          case WaitInterrupted =>
        }
      }
      Kill(env.lastWait);
    }

    /**
     `evaluate`. Whatever the kernel answers: every pipe end that was opened is closed exactly once;
     a child that was started is killed exactly when it was not seen to exit in time; it is reaped
     exactly once unless it was killed and the one blocking `waitpid` did not collect it; a score is
     returned exactly when all 21 bytes arrived and the exit code was 0, and it is the one in those bytes.
     */
    method Evaluate(password: bytes, env: Env) returns (r: Result<Score, WorkerError>)
      requires Fresh()
      modifies this
      ensures password == [] ==> r == Ok(Score(0, 0, 0, true)) && Fresh()
      ensures password != [] ==>
        && closed == EndsOpened(env.start)
        && (env.start == Started ==> closed == multiset{InRead, InWrite, OutRead, OutWrite})
        && kills == (if env.start == Started && Killed(env) then 1 else 0)
        && reaps == (if env.start == Started && (Killed(env) ==> env.lastWait) then 1 else 0)
        && sent <= Message(password)
        && (env.start == Started ==> |sent| == Fed(env.rounds, 21, env.output, |Message(password)|, 0, true))
        && (r.Err? ==> r.error == ErrorOf(env))
        && (r.Ok? <==> env.start == Started && Returns(env))
        && (r.Ok? ==> |env.output| >= 21 && r.value == DecodeScore(env.output[..21]))
    {
      hide Message, DecodeScore, Fed, Listen;
      if password == [] {
        return Ok(Score(0, 0, 0, true));
      }
      match env.start {
        case FirstPipeFails => return Err(NoInputPipe);
        case SecondPipeFails =>
          Close(InRead);
          Close(InWrite);
          return Err(NoOutputPipe);
        case ForkFails =>
          Close(InRead);
          Close(InWrite);
          Close(OutRead);
          Close(OutWrite);
          return Err(NoFork);
        case Started =>
      }
      r := Supervise(password, env);
    }

    /** The part after the fork. */
    method Supervise(password: bytes, env: Env) returns (r: Result<Score, WorkerError>)
      requires Fresh()
      modifies this
      ensures closed == EndsOpened(Started)
      ensures kills == if Killed(env) then 1 else 0
      ensures reaps == if Killed(env) && !env.lastWait then 0 else 1
      ensures sent <= Message(password) && |sent| == Fed(env.rounds, 21, env.output, |Message(password)|, 0, true)
      ensures r.Err? ==> env.start == Started ==> r.error == ErrorOf(env)
      ensures r.Ok? <==> Returns(env)
      ensures r.Ok? ==> |env.output| >= 21 && r.value == DecodeScore(env.output[..21])
    {
      hide Message, DecodeScore, Listen, Fed, Await, Balanced, EndsOpened;
      Adopt();
      var end, buffer := Converse(Message(password), env);
      if GivesUp(end) {
        Destroy();
        return Err(if end == PollBroke then PollError else TimedOut);
      }
      if inOpen {
        CloseInput();
      }
      var status := Collect(env);
      if status == None {
        Destroy();
        return Err(NotTerminated);
      }
      if |buffer| != 21 || status != Some(Exited(0)) {
        Destroy();
        return Err(BadAnswer);
      }
      assert buffer == env.output[..21];
      var score := ReadScore(buffer);
      Destroy();
      r := Ok(score);
    }
  }

  /** One reap is not guaranteed: a signal during the blocking `waitpid` leaves a zombie behind. */
  method LeavesAZombie() returns (parent: Parent, r: Result<Score, WorkerError>)
    ensures parent.kills == 1 && parent.reaps == 0 && r.Err?
  {
    var silent := Env(Started, [Round(NothingReady, Retry, Retry)], [], [], false);
    parent := new Parent();
    r := parent.Evaluate([65], silent);
  }

  /**
   End to end: whatever part of the message the worker saw before it ended, and however the kernel
   behaved, a score that `evaluate` returns is the rating of the password.
   */
  lemma ReturnedScoreIsTheRating(
      password: bytes, env: Env, input: bytes, rater: Rater, dictionary: bool, wrote: Option<nat>)
    requires Returns(env) && input <= Message(password)
    requires var run := WorkerMain(input, rater, dictionary, wrote);
      env.output == run.output && Await(env.waits) == Some(Exited(run.exit))
    ensures |env.output| == 21
    ensures DecodeScore(env.output[..21]) == Rate(rater, password[..Low32(|password|)])
    ensures |password| < 0x1_0000_0000 ==>
      |password| <= 4096 && DecodeScore(env.output[..21]) == Rate(rater, password)
  {
    hide Low32, Rate, EncodeScore, DecodeScore, Message, Listen, Await, WorkerMain;
    WorkerRatesThePassword(password, input, rater, dictionary, wrote);
    ScoreRoundTrip(Rate(rater, password[..Low32(|password|)]));
    assert env.output[..21] == env.output;
    if |password| < 0x1_0000_0000 {
      Low32Exact(|password|);
      assert password[..|password|] == password;
    }
  }
}
