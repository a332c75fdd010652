/**
 The match-key handshake of the RPC server: it puts a key to the tracker, polls while it waits, and
 hands a connection on when the client presents that key. Sockets, random draws and failures are
 events; a run is any sequence of events.
 */
module RpcHandshake {

  /** Device key, whether a tracker address is set, seconds per poll, and the protocol's magic number. */
  datatype Config = Config(key: string, tracked: bool, period: nat, magic: int)

  const UNMATCH_TIMEOUT: nat := 4

  /** Where the server is in its listen loop. */
  datatype Phase =
    | Starting    // connect to the tracker, if there is one and it is not connected
    | Drawing     // draw a key to report
    | Reporting   // key sent, status awaited
    | Polling     // wait for a connection, polling the tracker
    | Redrawing   // draw a key to replace one that was acquired and not used
    | Replacing   // replacement sent, status awaited
    | Accepting   // a connection is ready
    | Serving     // a connection was handed on

  /** What a client sends: magic number, announced length of its key, and the bytes that follow. */
  datatype Hello = Hello(magic: int, keylen: int, bytes: string)

  datatype Event =
    | Connected            // the tracker answers, or none has to be asked
    | Draw(digits: string) // a random draw, as text
    | Success              // the tracker acknowledges
    | Ready                // the poll finds a connection
    | Idle(pending: string) // the poll times out; the tracker lists pending keys
    | Client(hello: Hello)
    | Served               // the handed-on connection ends
    | Failure              // anything throws

  /** What the run did, in order. */
  datatype Action =
    | Put(key: string)              // first key of an accept
    | Replace(key: string)          // later key of the same accept
    | Waits                         // a wait starts, its counter at zero
    | Polled(key: string, pending: string) // an idle poll, with the tracker's text
    | Refused                       // a client was turned away
    | Handed(hello: Hello, opts: string)   // a connection was handed on, with its options
    | Lost                          // the tracker connection was closed

  datatype State = State(
    phase: Phase, connected: bool, oldKeys: set<string>, matchKey: string, count: nat, trace: seq<Action>)

  predicate IsSpace(c: char) {
    c == ' ' || '\t' <= c <= '\r'
  }

  function SkipSpaces(s: string): (r: string)
    ensures |r| <= |s|
  {
    if s == [] || !IsSpace(s[0]) then s else SkipSpaces(s[1..])
  }

  function TakeWord(s: string): (r: string)
    ensures |r| <= |s|
  {
    if s == [] || IsSpace(s[0]) then [] else [s[0]] + TakeWord(s[1..])
  }

  /** The first word of a text, and what follows it. */
  function FirstWord(s: string): string {
    TakeWord(SkipSpaces(s))
  }

  function AfterWord(s: string): string {
    SkipSpaces(s)[|FirstWord(s)|..]
  }

  /** The search in the tracker's text. */
  predicate Contains(text: string, part: string) {
    part <= text || (text != [] && Contains(text[1..], part))
  }

  function Expected(key: string): string {
    "client:" + key
  }

  /** The test that replaces an acquired but unused key. */
  predicate Overdue(cfg: Config, count: nat) {
    count * cfg.period > UNMATCH_TIMEOUT + cfg.period
  }

  function Log(s: State, a: Action): State {
    s.(trace := s.trace + [a])
  }

  /** Entering a wait: the counter starts again. Without a tracker connection there is no polling. */
  function EnterWait(s: State): State {
    Log(s.(phase := if s.connected then Polling else Accepting, count := 0), Waits)
  }

  /** An exception: the tracker connection is closed and the loop starts over. */
  function Fail(s: State): State {
    Log(s.(phase := Starting, connected := false, matchKey := "", count := 0), Lost)
  }

  function OnConnected(cfg: Config, s: State): State {
    if cfg.tracked then s.(phase := Drawing, connected := true, matchKey := "", count := 0)
    else EnterWait(s.(matchKey := cfg.key))
  }

  /** A drawn key goes to the tracker. */
  function Drawn(s: State, key: string): State {
    if s.phase.Drawing? then Log(s.(phase := Reporting, matchKey := key), Put(key))
    else Log(s.(phase := Replacing, matchKey := key), Replace(key))
  }

  function OnDraw(cfg: Config, s: State, digits: string): State {
    var key := cfg.key + ":" + digits;
    if key in s.oldKeys then s else Drawn(s, key)
  }

  function OnSuccess(s: State): State {
    if s.phase.Reporting? then EnterWait(s) else s.(phase := Polling, count := 0)
  }

  function OnIdle(cfg: Config, s: State, pending: string): State {
    var listed := Contains(pending, s.matchKey);
    var count := if listed then 0 else s.count + 1;
    Log(s.(oldKeys := s.oldKeys + {s.matchKey}, count := count,
           phase := if Overdue(cfg, count) then Redrawing else Polling), Polled(s.matchKey, pending))
  }

  /** Turning a client away starts another wait with the same key. */
  function Refuse(s: State): State {
    EnterWait(Log(s, Refused))
  }

  function OnClient(cfg: Config, s: State, hello: Hello): State {
    var expected := Expected(s.matchKey);
    if hello.magic != cfg.magic then Fail(s)
    else if 0 <= hello.keylen < |expected| then Refuse(s)
    else if hello.keylen != |hello.bytes| then Fail(s)
    else if FirstWord(hello.bytes) != expected then Refuse(s)
    else Log(s.(phase := Serving), Handed(hello, FirstWord(AfterWord(hello.bytes))))
  }

  /** One event; one that cannot happen in this phase changes nothing. */
  function Next(cfg: Config, s: State, e: Event): State {
    match (s.phase, e)
    case (Serving, Served) => s.(phase := Starting, matchKey := "")
    case (Serving, _) => s
    case (_, Failure) => Fail(s)
    case (Starting, Connected) => OnConnected(cfg, s)
    case (Drawing, Draw(digits)) => OnDraw(cfg, s, digits)
    case (Redrawing, Draw(digits)) => OnDraw(cfg, s, digits)
    case (Reporting, Success) => OnSuccess(s)
    case (Replacing, Success) => OnSuccess(s)
    case (Polling, Ready) => s.(phase := Accepting, count := 0)
    case (Polling, Idle(pending)) => OnIdle(cfg, s, pending)
    case (Accepting, Client(hello)) => OnClient(cfg, s, hello)
    case _ => s
  }

  function Start(): State {
    State(Starting, false, {}, "", 0, [])
  }

  function Run(cfg: Config, events: seq<Event>): State {
    if events == [] then Start() else Next(cfg, Run(cfg, events[..|events| - 1]), events[|events| - 1])
  }

  // What the searches in texts find, said without them.

  /** part stands at position i of text. */
  predicate StandsAt(text: string, part: string, i: nat) {
    i + |part| <= |text| && text[i..i + |part|] == part
  }

  predicate Occurs(text: string, part: string) {
    exists i: nat | i <= |text| :: StandsAt(text, part, i)
  }

  lemma {:induction false} ContainsExactly(text: string, part: string)
    ensures Contains(text, part) <==> Occurs(text, part)
  {
    if part <= text {
      assert StandsAt(text, part, 0);
    } else if text != [] {
      var rest := text[1..];
      ContainsExactly(rest, part);
      if Occurs(rest, part) {
        var i: nat :| i <= |rest| && StandsAt(rest, part, i);
        assert StandsAt(text, part, i + 1);
      }
      if Occurs(text, part) {
        var i: nat :| i <= |text| && StandsAt(text, part, i);
        assert i > 0 && StandsAt(rest, part, i - 1);
      }
    }
  }

  predicate AllSpace(s: string) {
    forall i | 0 <= i < |s| :: IsSpace(s[i])
  }

  predicate NoSpace(s: string) {
    forall i | 0 <= i < |s| :: !IsSpace(s[i])
  }

  /** After space, the first n characters of s end with its first word w; it is empty only if s is all space. */
  predicate WordEnds(s: string, w: string, n: nat) {
    && |w| <= n <= |s|
    && AllSpace(s[..n - |w|]) && s[n - |w|..n] == w && NoSpace(w)
    && (if w == [] then n == |s| else n == |s| || IsSpace(s[n]))
  }

  lemma {:induction false} SkipSpacesExactly(s: string)
    ensures var n := |s| - |SkipSpaces(s)|;
            AllSpace(s[..n]) && SkipSpaces(s) == s[n..] && (n < |s| ==> !IsSpace(s[n]))
  {
    if s != [] && IsSpace(s[0]) {
      SkipSpacesExactly(s[1..]);
      var n := |s| - |SkipSpaces(s)|;
      assert s[..n] == [s[0]] + s[1..][..n - 1];
      assert s[1..][n - 1..] == s[n..];
    }
  }

  lemma {:induction false} TakeWordExactly(s: string)
    ensures var n := |TakeWord(s)|; n <= |s| && TakeWord(s) == s[..n] && NoSpace(s[..n]) && (n < |s| ==> IsSpace(s[n]))
  {
    if s != [] && !IsSpace(s[0]) {
      TakeWordExactly(s[1..]);
      var n := |TakeWord(s)|;
      assert s[..n] == [s[0]] + s[1..][..n - 1];
    }
  }

  /** The first word and what follows it are those of the text. */
  lemma WordIsFirst(s: string)
    ensures WordEnds(s, FirstWord(s), |s| - |AfterWord(s)|) && AfterWord(s) == s[|s| - |AfterWord(s)|..]
  {
    var t := SkipSpaces(s);
    SkipSpacesExactly(s);
    TakeWordExactly(t);
    hide SkipSpaces, TakeWord;
    var w := FirstWord(s);
    var k := |s| - |t|;
    assert s[k..k + |w|] == t[..|w|];
    assert t[|w|..] == s[k + |w|..];
  }

  lemma WordFacts(s: string, w: string, n: nat)
    requires WordEnds(s, w, n)
    ensures forall x | 0 <= x < n - |w| :: IsSpace(s[x])
    ensures forall x | n - |w| <= x < n :: !IsSpace(s[x])
    ensures n < |s| ==> w != [] && IsSpace(s[n])
  {
    var i := n - |w|;
    assert forall x | 0 <= x < i :: s[..i][x] == s[x];
    assert forall x | i <= x < n :: w[x - i] == s[x];
  }

  /** A text has one first word. */
  lemma WordUnique(s: string, v: string, m: nat, w: string, n: nat)
    requires WordEnds(s, v, m) && WordEnds(s, w, n)
    ensures v == w && m == n
  {
    WordFacts(s, v, m);
    WordFacts(s, w, n);
    hide IsSpace, AllSpace, NoSpace;
    var i, j := m - |v|, n - |w|;
    assert i < |s| ==> i < m && !IsSpace(s[i]);
    assert j < |s| ==> j < n && !IsSpace(s[j]);
    assert i == j;
    assert m < |s| ==> IsSpace(s[m]);
    assert n < |s| ==> IsSpace(s[n]);
    assert m == n;
  }

  /** The first two words of a text, and where they end. */
  predicate WordsEnd(s: string, w: string, n: nat, v: string, m: nat) {
    WordEnds(s, w, n) && WordEnds(s[n..], v, m)
  }

  /** The client's magic number and length are right, its first word is the one expected, its second gives the options. */
  predicate Presents(cfg: Config, hello: Hello, word: string, opts: string) {
    && hello.magic == cfg.magic && hello.keylen == |hello.bytes|
    && exists n: nat, m: nat | n <= |hello.bytes| && m <= |hello.bytes| :: WordsEnd(hello.bytes, word, n, opts, m)
  }

  /** The test on a client's text. */
  lemma PresentsExactly(cfg: Config, hello: Hello, word: string, opts: string)
    ensures Presents(cfg, hello, word, opts) <==>
              && hello.magic == cfg.magic && hello.keylen == |hello.bytes|
              && FirstWord(hello.bytes) == word && FirstWord(AfterWord(hello.bytes)) == opts
  {
    var s := hello.bytes;
    var t := AfterWord(s);
    assert |AfterWord(t)| <= |t| <= |s|;
    hide FirstWord, AfterWord, WordEnds;
    WordIsFirst(s);
    WordIsFirst(t);
    var w, v := FirstWord(s), FirstWord(t);
    assert WordsEnd(s, w, |s| - |t|, v, |t| - |AfterWord(t)|);
    if Presents(cfg, hello, word, opts) {
      var n: nat, m: nat :| n <= |s| && m <= |s| && WordsEnd(s, word, n, opts, m);
      WordUnique(s, word, n, w, |s| - |t|);
      WordUnique(t, opts, m, v, |t| - |AfterWord(t)|);
    }
  }

  /** The key last put to the tracker. */
  function LastPut(trace: seq<Action>): string {
    if trace == [] then ""
    else
      var last := trace[|trace| - 1];
      if last.Put? || last.Replace? then last.key else LastPut(trace[..|trace| - 1])
  }

  /** The key a client has to present. */
  function Current(cfg: Config, trace: seq<Action>): string {
    if cfg.tracked then LastPut(trace) else cfg.key
  }

  /** A poll in whose text the key does not occur. */
  predicate UnlistedPoll(a: Action) {
    a.Polled? && !Occurs(a.pending, a.key)
  }

  /** Length of the unbroken run of unlisted polls that ends the trace. */
  function Unlisted(trace: seq<Action>): nat {
    if trace == [] then 0
    else
      var last := trace[|trace| - 1];
      if UnlistedPoll(last) then 1 + Unlisted(trace[..|trace| - 1]) else 0
  }

  /** A key was put since the last exception and the last hand-over. */
  predicate Reported(trace: seq<Action>) {
    trace != [] &&
    var last := trace[|trace| - 1];
    last.Put? || (!last.Lost? && !last.Handed? && Reported(trace[..|trace| - 1]))
  }

  predicate WasPolled(trace: seq<Action>, key: string) {
    exists i | 0 <= i < |trace| :: trace[i].Polled? && trace[i].key == key
  }

  /** c polls are the least number that makes a key overdue. */
  predicate JustOverdue(cfg: Config, c: nat) {
    c > 0 && Overdue(cfg, c) && !Overdue(cfg, c - 1)
  }

  /** What the handshake promises of an action, given what went before. */
  predicate SafeAction(cfg: Config, past: seq<Action>, a: Action) {
    match a
    case Handed(hello, opts) =>
      Presents(cfg, hello, Expected(Current(cfg, past)), opts) && (cfg.tracked ==> Reported(past))
    case Put(key) => cfg.tracked && cfg.key + ":" <= key && !WasPolled(past, key)
    case Replace(key) =>
      cfg.tracked && cfg.key + ":" <= key && !WasPolled(past, key) && JustOverdue(cfg, Unlisted(past))
    case Polled(key, _) => cfg.tracked && key == LastPut(past) && !Overdue(cfg, Unlisted(past))
    case _ => true
  }

  predicate SafeTrace(cfg: Config, trace: seq<Action>) {
    trace == [] || (SafeTrace(cfg, trace[..|trace| - 1]) && SafeAction(cfg, trace[..|trace| - 1], trace[|trace| - 1]))
  }

  lemma {:induction false} SafeAt(cfg: Config, trace: seq<Action>, i: nat)
    requires SafeTrace(cfg, trace) && i < |trace|
    ensures SafeAction(cfg, trace[..i], trace[i])
  {
    if i < |trace| - 1 {
      var shorter := trace[..|trace| - 1];
      SafeAt(cfg, shorter, i);
      assert shorter[..i] == trace[..i];
    }
  }

  /** What every reachable state satisfies besides its trace. */
  predicate Consistent(cfg: Config, s: State) {
    && (s.connected ==> cfg.tracked)
    && (s.phase !in {Starting} && cfg.tracked ==> s.connected)
    && (s.phase in {Drawing, Reporting, Polling, Redrawing, Replacing} ==> cfg.tracked)
    && (s.phase in {Reporting, Polling, Redrawing, Replacing, Accepting, Serving} ==> s.matchKey == Current(cfg, s.trace))
    && (s.phase in {Reporting, Polling, Redrawing, Replacing, Accepting} && cfg.tracked ==> Reported(s.trace))
    && (forall i | 0 <= i < |s.trace| && s.trace[i].Polled? :: s.trace[i].key in s.oldKeys)
    && (s.phase in {Polling, Redrawing} ==> s.count == Unlisted(s.trace))
    && (s.phase.Replacing? ==> Unlisted(s.trace) == 0)
    && (s.phase.Polling? ==> !Overdue(cfg, s.count))
    && (s.phase.Redrawing? ==> JustOverdue(cfg, s.count))
  }

  predicate Invariant(cfg: Config, s: State) {
    Consistent(cfg, s) && SafeTrace(cfg, s.trace)
  }

  lemma LogSnoc(cfg: Config, trace: seq<Action>, a: Action)
    ensures LastPut(trace + [a]) == if a.Put? || a.Replace? then a.key else LastPut(trace)
    ensures Unlisted(trace + [a]) == if UnlistedPoll(a) then 1 + Unlisted(trace) else 0
    ensures Reported(trace + [a]) <==> a.Put? || (!a.Lost? && !a.Handed? && Reported(trace))
    ensures SafeTrace(cfg, trace + [a]) <==> SafeTrace(cfg, trace) && SafeAction(cfg, trace, a)
  {
    assert (trace + [a])[..|trace|] == trace;
  }

  lemma WaitKeeps(cfg: Config, s: State)
    requires SafeTrace(cfg, s.trace) && (s.connected <==> cfg.tracked) && s.matchKey == Current(cfg, s.trace)
    requires cfg.tracked ==> Reported(s.trace)
    requires forall i | 0 <= i < |s.trace| && s.trace[i].Polled? :: s.trace[i].key in s.oldKeys
    ensures Invariant(cfg, EnterWait(s))
  {
    LogSnoc(cfg, s.trace, Waits);
  }

  lemma DrawKeeps(cfg: Config, s: State, digits: string)
    requires Invariant(cfg, s) && (s.phase.Drawing? || s.phase.Redrawing?)
    ensures Invariant(cfg, OnDraw(cfg, s, digits))
  {
    var key := cfg.key + ":" + digits;
    assert key !in s.oldKeys ==> !WasPolled(s.trace, key);
    LogSnoc(cfg, s.trace, Put(key));
    LogSnoc(cfg, s.trace, Replace(key));
  }

  lemma IdleKeeps(cfg: Config, s: State, pending: string)
    requires Invariant(cfg, s) && s.phase.Polling?
    ensures Invariant(cfg, OnIdle(cfg, s, pending))
  {
    hide Overdue, Contains, Occurs;
    NeverOverdueAtZero(cfg);
    ContainsExactly(pending, s.matchKey);
    LogSnoc(cfg, s.trace, Polled(s.matchKey, pending));
  }

  lemma NeverOverdueAtZero(cfg: Config)
    ensures !Overdue(cfg, 0)
  {
  }

  lemma FailKeeps(cfg: Config, s: State)
    requires Invariant(cfg, s)
    ensures Invariant(cfg, Fail(s))
  {
    LogSnoc(cfg, s.trace, Lost);
  }

  lemma ClientKeeps(cfg: Config, s: State, hello: Hello)
    requires Invariant(cfg, s) && s.phase.Accepting?
    ensures Invariant(cfg, OnClient(cfg, s, hello))
  {
    hide FirstWord, AfterWord, Overdue, Presents;
    FailKeeps(cfg, s);
    var word, opts := FirstWord(hello.bytes), FirstWord(AfterWord(hello.bytes));
    PresentsExactly(cfg, hello, word, opts);
    LogSnoc(cfg, s.trace, Refused);
    WaitKeeps(cfg, Log(s, Refused));
    LogSnoc(cfg, s.trace, Handed(hello, opts));
  }

  /** Every event keeps the invariant. */
  lemma NextKeeps(cfg: Config, s: State, e: Event)
    requires Invariant(cfg, s)
    ensures Invariant(cfg, Next(cfg, s, e))
  {
    hide Overdue, EnterWait, OnDraw, OnIdle, OnClient, Fail;
    NeverOverdueAtZero(cfg);
    FailKeeps(cfg, s);
    match (s.phase, e) {
      case (Starting, Connected) => if !cfg.tracked { WaitKeeps(cfg, s.(matchKey := cfg.key)); }
      case (Drawing, Draw(digits)) => DrawKeeps(cfg, s, digits);
      case (Redrawing, Draw(digits)) => DrawKeeps(cfg, s, digits);
      case (Reporting, Success) => WaitKeeps(cfg, s);
      case (Polling, Idle(pending)) => IdleKeeps(cfg, s, pending);
      case (Accepting, Client(hello)) => ClientKeeps(cfg, s, hello);
      case _ =>
    }
  }

  /** The invariant holds after every run. */
  lemma {:induction false} RunKeeps(cfg: Config, events: seq<Event>)
    ensures Invariant(cfg, Run(cfg, events))
  {
    if events != [] {
      RunKeeps(cfg, events[..|events| - 1]);
      NextKeeps(cfg, Run(cfg, events[..|events| - 1]), events[|events| - 1]);
    }
  }

  // From actions back to events.

  lemma NextExtends(cfg: Config, s: State, e: Event)
    ensures s.trace <= Next(cfg, s, e).trace
  {
    hide Overdue, FirstWord, AfterWord, Contains;
  }

  /** The event that an action answers: it came in when exactly the actions before were done. */
  lemma {:induction false} EventOf(cfg: Config, events: seq<Event>, i: nat) returns (n: nat)
    requires i < |Run(cfg, events).trace|
    ensures n < |events| && |Run(cfg, events[..n]).trace| <= i < |Run(cfg, events[..n + 1]).trace|
    ensures Run(cfg, events[..n]).trace <= Run(cfg, events[..n + 1]).trace <= Run(cfg, events).trace
    ensures Run(cfg, events[..n + 1]) == Next(cfg, Run(cfg, events[..n]), events[n])
  {
    hide Next;
    n := |events| - 1;
    var shorter := events[..n];
    NextExtends(cfg, Run(cfg, shorter), events[n]);
    if i < |Run(cfg, shorter).trace| {
      n := EventOf(cfg, shorter, i);
      assert shorter[..n] == events[..n] && shorter[..n + 1] == events[..n + 1];
    } else {
      assert events[..n + 1] == events;
    }
  }

  /** A poll answers an idle event with its text, while the key polled was to be presented. */
  lemma PollEvent(cfg: Config, events: seq<Event>, i: nat) returns (n: nat)
    requires i < |Run(cfg, events).trace| && Run(cfg, events).trace[i].Polled?
    ensures n < |events| && events[n] == Idle(Run(cfg, events).trace[i].pending)
    ensures Run(cfg, events[..n]).phase.Polling? && Run(cfg, events[..n]).matchKey == Run(cfg, events).trace[i].key
    ensures Run(cfg, events[..n]).trace == Run(cfg, events).trace[..i]
    ensures Run(cfg, events[..n + 1]).trace == Run(cfg, events).trace[..i + 1]
  {
    hide Run, Overdue, FirstWord, AfterWord, Contains;
    n := EventOf(cfg, events, i);
  }

  /** A hand-over answers what a client sent. */
  lemma HandOverEvent(cfg: Config, events: seq<Event>, i: nat) returns (n: nat)
    requires i < |Run(cfg, events).trace| && Run(cfg, events).trace[i].Handed?
    ensures n < |events| && events[n] == Client(Run(cfg, events).trace[i].hello)
    ensures Run(cfg, events[..n]).phase.Accepting? && Run(cfg, events[..n]).trace == Run(cfg, events).trace[..i]
  {
    hide Run, Overdue, FirstWord, AfterWord, Contains;
    n := EventOf(cfg, events, i);
  }

  /**
   A connection is handed on only to a client that sent the right magic number and length and whose
   first word names the key last put to the tracker, or the plain key without a tracker.
   */
  lemma HandedOnlyToKey(cfg: Config, events: seq<Event>, i: nat) returns (n: nat)
    requires i < |Run(cfg, events).trace| && Run(cfg, events).trace[i].Handed?
    ensures n < |events| && events[n] == Client(Run(cfg, events).trace[i].hello)
    ensures var trace := Run(cfg, events).trace;
            Presents(cfg, events[n].hello, "client:" + if cfg.tracked then LastPut(trace[..i]) else cfg.key, trace[i].opts)
  {
    hide Presents;
    RunKeeps(cfg, events);
    SafeAt(cfg, Run(cfg, events).trace, i);
    n := HandOverEvent(cfg, events, i);
  }

  /** And a client that does so is handed on. */
  lemma MatchingClientIsHandedOn(cfg: Config, events: seq<Event>, hello: Hello, opts: string)
    requires Run(cfg, events).phase.Accepting?
    requires Presents(cfg, hello, "client:" + Current(cfg, Run(cfg, events).trace), opts)
    ensures var after := Run(cfg, events + [Client(hello)]);
            after.phase.Serving? && after.trace == Run(cfg, events).trace + [Handed(hello, opts)]
  {
    hide Presents, FirstWord, AfterWord;
    RunKeeps(cfg, events);
    PresentsExactly(cfg, hello, Expected(Current(cfg, Run(cfg, events).trace)), opts);
    WordFits(hello.bytes);
    assert (events + [Client(hello)])[..|events|] == events;
  }

  lemma WordFits(s: string)
    ensures |FirstWord(s)| <= |s|
  {
  }

  /** A key that was listed or missed in an idle poll is never put again. */
  lemma PolledKeyNeverPutAgain(cfg: Config, events: seq<Event>, i: nat, j: nat)
    requires i < j < |Run(cfg, events).trace|
    requires var trace := Run(cfg, events).trace; trace[i].Polled? && (trace[j].Put? || trace[j].Replace?)
    ensures Run(cfg, events).trace[i].key != Run(cfg, events).trace[j].key
  {
    var trace := Run(cfg, events).trace;
    RunKeeps(cfg, events);
    SafeAt(cfg, trace, j);
    assert trace[..j][i].Polled?;
  }

  /**
   A key is replaced only right after c idle polls in a row in whose texts it does not occur, where
   c is the least number with c * period > 4 + period. The polls are given by their events.
   */
  lemma ReplacedAfterUnlistedPolls(cfg: Config, events: seq<Event>, j: nat) returns (c: nat, polls: seq<nat>)
    requires j < |Run(cfg, events).trace| && Run(cfg, events).trace[j].Replace?
    ensures c > 0 && c * cfg.period > 4 + cfg.period && (c - 1) * cfg.period <= 4 + cfg.period
    ensures c <= j && |polls| == c && forall k | 0 <= k < c :: polls[k] < |events| && events[polls[k]].Idle?
    ensures forall k | 0 <= k < c :: !Occurs(events[polls[k]].pending, LastPut(Run(cfg, events).trace[..j]))
    ensures forall k | 0 <= k < c ::
              && Run(cfg, events[..polls[k]]).trace == Run(cfg, events).trace[..j - c + k]
              && Run(cfg, events[..polls[k] + 1]).trace == Run(cfg, events).trace[..j - c + k + 1]
    ensures c == j || !UnlistedPoll(Run(cfg, events).trace[j - c - 1])
  {
    hide Run, Occurs, UnlistedPoll, SafeTrace;
    var trace := Run(cfg, events).trace;
    RunKeeps(cfg, events);
    SafeAt(cfg, trace, j);
    c := Unlisted(trace[..j]);
    UnlistedRun(cfg, trace, j);
    polls := [];
    while |polls| < c
      invariant |polls| <= c && forall k | 0 <= k < |polls| ::
                  && polls[k] < |events| && events[polls[k]].Idle?
                  && !Occurs(events[polls[k]].pending, LastPut(trace[..j]))
                  && Run(cfg, events[..polls[k]]).trace == trace[..j - c + k]
                  && Run(cfg, events[..polls[k] + 1]).trace == trace[..j - c + k + 1]
      decreases c - |polls|
    {
      var i := j - c + |polls|;
      PollOf(trace[i], LastPut(trace[..j]));
      var n := PollEvent(cfg, events, i);
      polls := polls + [n];
    }
  }

  /** An unlisted poll of a key. */
  predicate UnlistedPollOf(a: Action, key: string) {
    UnlistedPoll(a) && a.key == key
  }

  lemma PollOf(a: Action, key: string)
    requires UnlistedPollOf(a, key)
    ensures a.Polled? && a.key == key && !Occurs(a.pending, key)
  {
  }

  lemma {:induction false} UnlistedRun(cfg: Config, trace: seq<Action>, j: nat)
    requires SafeTrace(cfg, trace) && j <= |trace|
    ensures Unlisted(trace[..j]) <= j
    ensures forall i | j - Unlisted(trace[..j]) <= i < j :: UnlistedPollOf(trace[i], LastPut(trace[..j]))
    ensures var c := Unlisted(trace[..j]); c == j || !UnlistedPoll(trace[j - c - 1])
  {
    hide SafeTrace, Occurs;
    if j > 0 {
      var past, last := trace[..j], trace[j - 1];
      assert past[..j - 1] == trace[..j - 1];
      if UnlistedPoll(last) {
        UnlistedRun(cfg, trace, j - 1);
        SafeAt(cfg, trace, j - 1);
      }
    }
  }

  /**
   A poll whose text does hold the key starts the count again: the key is not replaced then, and the
   polls that lead to the next replacement all come later.
   */
  lemma ListedPollRestarts(cfg: Config, events: seq<Event>, n: nat)
    requires n < |events| && Run(cfg, events[..n]).phase.Polling? && events[n].Idle?
    requires Occurs(events[n].pending, Run(cfg, events[..n]).matchKey)
    ensures Run(cfg, events[..n + 1]).phase.Polling? && Run(cfg, events[..n + 1]).count == 0
    ensures forall j | |Run(cfg, events[..n + 1]).trace| <= j <= |Run(cfg, events).trace| ::
              j - Unlisted(Run(cfg, events).trace[..j]) >= |Run(cfg, events[..n + 1]).trace|
  {
    var s := Run(cfg, events[..n]);
    var after := Run(cfg, events[..n + 1]);
    assert events[..n + 1][..n] == events[..n];
    ContainsExactly(events[n].pending, s.matchKey);
    NeverOverdueAtZero(cfg);
    hide Overdue, Contains, Occurs;
    assert after == OnIdle(cfg, s, events[n].pending);
    assert after.trace == s.trace + [Polled(s.matchKey, events[n].pending)];
    TraceGrows(cfg, events, n + 1);
    hide Run;
    forall j | |after.trace| <= j <= |Run(cfg, events).trace|
      ensures j - Unlisted(Run(cfg, events).trace[..j]) >= |after.trace|
    {
      ListedBreaksRun(Run(cfg, events).trace, |s.trace|, j);
    }
  }

  lemma {:induction false} ListedBreaksRun(trace: seq<Action>, i: nat, j: nat)
    requires i < j <= |trace| && !UnlistedPoll(trace[i])
    ensures j - Unlisted(trace[..j]) >= i + 1
  {
    assert trace[..j][..j - 1] == trace[..j - 1];
    if i + 1 < j {
      ListedBreaksRun(trace, i, j - 1);
    }
  }

  /** A run only ever adds to its trace. */
  lemma {:induction false} TraceGrows(cfg: Config, events: seq<Event>, n: nat)
    requires n <= |events|
    ensures Run(cfg, events[..n]).trace <= Run(cfg, events).trace
  {
    hide Next;
    if n < |events| {
      var shorter := events[..|events| - 1];
      assert shorter[..n] == events[..n];
      TraceGrows(cfg, shorter, n);
      NextExtends(cfg, Run(cfg, shorter), events[|events| - 1]);
    } else {
      assert events[..n] == events;
    }
  }

  /** No key is polled once it is overdue: the server replaces it first. */
  lemma OverdueKeyNotPolled(cfg: Config, events: seq<Event>, j: nat)
    requires j < |Run(cfg, events).trace| && Run(cfg, events).trace[j].Polled?
    ensures Unlisted(Run(cfg, events).trace[..j]) * cfg.period <= 4 + cfg.period
  {
    RunKeeps(cfg, events);
    SafeAt(cfg, Run(cfg, events).trace, j);
  }

  /** Between an exception or a hand-over and the next hand-over a key is put: every hand-over has its own. */
  lemma EveryHandOverHasItsPut(cfg: Config, events: seq<Event>, i: nat, j: nat) returns (k: nat)
    requires cfg.tracked && i < j < |Run(cfg, events).trace|
    requires var trace := Run(cfg, events).trace; (trace[i].Lost? || trace[i].Handed?) && trace[j].Handed?
    ensures i < k < j && Run(cfg, events).trace[k].Put?
  {
    var trace := Run(cfg, events).trace;
    RunKeeps(cfg, events);
    SafeAt(cfg, trace, j);
    k := FindPut(trace, i, j);
  }

  lemma {:induction false} FindPut(trace: seq<Action>, i: nat, j: nat) returns (k: nat)
    requires i < j <= |trace| && (trace[i].Lost? || trace[i].Handed?) && Reported(trace[..j])
    ensures i < k < j && trace[k].Put?
  {
    assert trace[..j][..j - 1] == trace[..j - 1];
    if trace[j - 1].Put? {
      k := j - 1;
    } else {
      k := FindPut(trace, i, j - 1);
    }
  }
}
