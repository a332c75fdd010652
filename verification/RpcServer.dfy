/**
 The listen loop with the loops nested in it, on any sequence of events. The place in the program
 stands for the phase of the step system, and local variables for the key and the counter.
 */
module RpcServer {
  import opened RpcHandshake

  /** How a call comes back: normally, with an exception, or not at all because no event is left. */
  datatype Flow = Normal | Threw | Ended

  lemma RunStep(cfg: Config, events: seq<Event>, n: nat)
    requires n < |events|
    ensures Run(cfg, events[..n + 1]) == Next(cfg, Run(cfg, events[..n]), events[n])
  {
    assert events[..n + 1][..n] == events[..n];
  }

  class Server {
    const cfg: Config
    const events: seq<Event>
    var next: nat
    var connected: bool
    var oldKeys: set<string>
    var trace: seq<Action>

    constructor (cfg: Config, events: seq<Event>)
      ensures this.cfg == cfg && this.events == events && Synced(Starting, "", 0)
    {
      this.cfg, this.events := cfg, events;
      next, connected, oldKeys, trace := 0, false, {}, [];
    }

    /** The state that a place in the program stands for. */
    ghost function At(phase: Phase, matchKey: string, count: nat): State
      reads this
    {
      State(phase, connected, oldKeys, matchKey, count, trace)
    }

    /** The step system after the events read so far. */
    ghost function Spec(): State
      requires next <= |events|
      reads this
    {
      Run(cfg, events[..next])
    }

    ghost predicate Synced(phase: Phase, matchKey: string, count: nat)
      reads this
    {
      next <= |events| && Spec() == At(phase, matchKey, count)
    }

    /** An exception is on its way to the listen loop. */
    ghost predicate Throwing()
      reads this
    {
      next <= |events| && Spec() == Fail(At(Starting, "", 0))
    }

    /** A key was reported or is to be used again, and the next wait is due. */
    ghost predicate WaitDue(matchKey: string)
      reads this
    {
      next <= |events| && Spec() == EnterWait(At(Starting, matchKey, 0))
    }

    /** No event is left, and all that was done is recorded. */
    ghost predicate Finished()
      reads this
    {
      && next == |events|
      && var s := Run(cfg, events); trace == s.trace && oldKeys == s.oldKeys && connected == s.connected
    }

    lemma Ending(phase: Phase, matchKey: string, count: nat)
      requires Synced(phase, matchKey, count) && next == |events|
      ensures Finished()
    {
      assert events[..|events|] == events;
    }

    /** Connects to the tracker if there is one and it is not connected. */
    method TryConnect() returns (flow: Flow)
      requires Synced(Starting, "", 0)
      modifies this
      ensures flow.Normal? && cfg.tracked ==> connected && Synced(Drawing, "", 0)
      ensures flow.Normal? && !cfg.tracked ==> WaitDue(cfg.key) && connected == old(connected)
      ensures flow.Threw? ==> Throwing()
      ensures flow.Ended? ==> Finished()
      ensures next >= old(next) && (!flow.Ended? ==> next > old(next))
    {
      hide Run, EnterWait, Fail;
      while next < |events|
        invariant Synced(Starting, "", 0) && connected == old(connected) && next >= old(next)
        decreases |events| - next
      {
        RunStep(cfg, events, next);
        var e := events[next];
        next := next + 1;
        if e.Connected? {
          if cfg.tracked {
            connected := true;
          }
          return Normal;
        } else if e.Failure? {
          return Threw;
        }
      }
      Ending(Starting, "", 0);
      return Ended;
    }

    /** Draws keys until one comes up that was not polled before. */
    method RandomKey(ghost phase: Phase, ghost matchKey: string, ghost count: nat) returns (flow: Flow, key: string)
      requires Synced(phase, matchKey, count) && phase in {Drawing, Redrawing}
      modifies this`next
      ensures flow.Normal? ==> key !in oldKeys && next <= |events| && Spec() == Drawn(At(phase, matchKey, count), key)
      ensures flow.Threw? ==> Throwing()
      ensures flow.Ended? ==> Finished()
      ensures next >= old(next)
    {
      hide Run, Drawn;
      key := "";
      while next < |events|
        invariant Synced(phase, matchKey, count) && next >= old(next)
        decreases |events| - next
      {
        RunStep(cfg, events, next);
        var e := events[next];
        next := next + 1;
        if e.Draw? {
          key := cfg.key + ":" + e.digits;
          if key !in oldKeys {
            return Normal, key;
          }
        } else if e.Failure? {
          return Threw, key;
        }
      }
      Ending(phase, matchKey, count);
      flow := Ended;
    }

    /** Receives the tracker's status for a key that was put. */
    method ReceiveStatus(ghost phase: Phase, ghost matchKey: string, ghost count: nat) returns (flow: Flow)
      requires Synced(phase, matchKey, count) && phase in {Reporting, Replacing}
      modifies this`next
      ensures flow.Normal? ==> next <= |events| && Spec() == OnSuccess(At(phase, matchKey, count))
      ensures flow.Threw? ==> Throwing()
      ensures flow.Ended? ==> Finished()
      ensures next >= old(next)
    {
      hide Run, OnSuccess;
      while next < |events|
        invariant Synced(phase, matchKey, count) && next >= old(next)
        decreases |events| - next
      {
        RunStep(cfg, events, next);
        var e := events[next];
        next := next + 1;
        if e.Success? {
          return Normal;
        } else if e.Failure? {
          return Threw;
        }
      }
      Ending(phase, matchKey, count);
      return Ended;
    }

    method ReportResourceAndGetKey() returns (flow: Flow, matchKey: string)
      requires if cfg.tracked then connected && Synced(Drawing, "", 0) else !connected && WaitDue(cfg.key)
      modifies this
      ensures flow.Normal? ==> WaitDue(matchKey) && (connected <==> cfg.tracked)
      ensures flow.Threw? ==> Throwing()
      ensures flow.Ended? ==> Finished()
      ensures next >= old(next)
    {
      hide Run;
      if connected {
        flow, matchKey := RandomKey(Drawing, "", 0);
        if !flow.Normal? {
          return;
        }
        trace := trace + [Put(matchKey)];
        flow := ReceiveStatus(Reporting, matchKey, 0);
      } else {
        flow, matchKey := Normal, cfg.key;
      }
    }

    /** Puts another key in place of one that is overdue. */
    method ReplaceKey(ghost oldKey: string, ghost count: nat) returns (flow: Flow, matchKey: string)
      requires Synced(Redrawing, oldKey, count)
      modifies this
      ensures flow.Normal? ==> Synced(Polling, matchKey, 0) && connected == old(connected)
      ensures flow.Threw? ==> Throwing()
      ensures flow.Ended? ==> Finished()
      ensures next >= old(next)
    {
      hide Run;
      flow, matchKey := RandomKey(Redrawing, oldKey, count);
      if !flow.Normal? {
        return;
      }
      trace := trace + [Replace(matchKey)];
      flow := ReceiveStatus(Replacing, matchKey, count);
    }

    /** Polls until a connection is ready, and replaces the key when it is overdue. */
    method WaitConnectionAndUpdateKey(key: string) returns (flow: Flow, matchKey: string)
      requires WaitDue(key)
      modifies this
      ensures flow.Normal? ==> Synced(Accepting, matchKey, 0) && connected == old(connected)
      ensures flow.Threw? ==> Throwing()
      ensures flow.Ended? ==> Finished()
      ensures next >= old(next)
    {
      hide Run, Overdue, Contains;
      matchKey := key;
      trace := trace + [Waits];
      if !connected {
        return Normal, matchKey;
      }
      var count := 0;
      while next < |events|
        invariant Synced(Polling, matchKey, count) && connected == old(connected) && next >= old(next)
        decreases |events| - next
      {
        RunStep(cfg, events, next);
        var e := events[next];
        next := next + 1;
        if e.Ready? {
          return Normal, matchKey;
        } else if e.Failure? {
          return Threw, matchKey;
        } else if e.Idle? {
          oldKeys := oldKeys + {matchKey};
          var listed := Contains(e.pending, matchKey);
          trace := trace + [Polled(matchKey, e.pending)];
          if !listed {
            count := count + 1;
          } else {
            count := 0;
          }
          if Overdue(cfg, count) {
            flow, matchKey := ReplaceKey(matchKey, count);
            if !flow.Normal? {
              return;
            }
            count := 0;
          }
        }
      }
      Ending(Polling, matchKey, count);
      flow := Ended;
    }

    /** Reads what a client sends. */
    method ReceiveHello(ghost matchKey: string) returns (flow: Flow, hello: Hello)
      requires Synced(Accepting, matchKey, 0)
      modifies this`next
      ensures flow.Normal? ==> next <= |events| && Spec() == OnClient(cfg, At(Accepting, matchKey, 0), hello)
      ensures flow.Threw? ==> Throwing()
      ensures flow.Ended? ==> Finished()
      ensures next >= old(next) && (flow.Normal? ==> next > old(next))
    {
      hide Run, OnClient;
      hello := Hello(0, 0, "");
      while next < |events|
        invariant Synced(Accepting, matchKey, 0) && next >= old(next)
        decreases |events| - next
      {
        RunStep(cfg, events, next);
        var e := events[next];
        next := next + 1;
        if e.Client? {
          return Normal, e.hello;
        } else if e.Failure? {
          return Threw, hello;
        }
      }
      Ending(Accepting, matchKey, 0);
      flow := Ended;
    }

    /** Reports a key, then waits and accepts until a client presents it. */
    method AcceptConnection() returns (flow: Flow, ghost key: string)
      requires if cfg.tracked then connected && Synced(Drawing, "", 0) else !connected && WaitDue(cfg.key)
      modifies this
      ensures flow.Normal? ==> Synced(Serving, key, 0)
      ensures flow.Threw? ==> Throwing()
      ensures flow.Ended? ==> Finished()
      ensures next >= old(next)
    {
      hide Run, FirstWord, AfterWord;
      var matchKey: string;
      flow, matchKey := ReportResourceAndGetKey();
      key := matchKey;
      while flow.Normal?
        invariant flow.Normal? ==> WaitDue(matchKey)
        invariant flow.Threw? ==> Throwing()
        invariant flow.Ended? ==> Finished()
        invariant next >= old(next)
        decreases flow.Normal?, if next <= |events| then |events| - next else 0
      {
        flow, matchKey := WaitConnectionAndUpdateKey(matchKey);
        key := matchKey;
        if flow.Normal? {
          var hello: Hello;
          flow, hello := ReceiveHello(matchKey);
          if flow.Normal? {
            var expected := "client:" + matchKey;
            if hello.magic != cfg.magic {
              flow := Threw;
            } else if 0 <= hello.keylen < |expected| {
              trace := trace + [Refused];
            } else if hello.keylen != |hello.bytes| {
              flow := Threw;
            } else if FirstWord(hello.bytes) != expected {
              trace := trace + [Refused];
            } else {
              trace := trace + [Handed(hello, FirstWord(AfterWord(hello.bytes)))];
              return;
            }
          }
        }
      }
    }

    /** The connection is served until it ends. */
    method Serve(ghost matchKey: string) returns (flow: Flow)
      requires Synced(Serving, matchKey, 0)
      modifies this`next
      ensures flow.Normal? ==> Synced(Starting, "", 0) && next > old(next)
      ensures !flow.Normal? ==> flow.Ended? && Finished()
    {
      hide Run;
      while next < |events|
        invariant Synced(Serving, matchKey, 0) && next >= old(next)
        decreases |events| - next
      {
        RunStep(cfg, events, next);
        var e := events[next];
        next := next + 1;
        if e.Served? {
          return Normal;
        }
      }
      Ending(Serving, matchKey, 0);
      return Ended;
    }

    /** Closes the tracker connection after an exception. */
    method Close()
      requires Throwing()
      modifies this
      ensures Synced(Starting, "", 0) && next == old(next)
    {
      hide Run;
      connected := false;
      trace := trace + [Lost];
    }

    /**
     The listen loop. It does what the step system does on the same events, and so everything it
     did is safe.
     */
    method ListenLoop()
      requires Synced(Starting, "", 0) && next == 0
      modifies this
      ensures Finished() && SafeTrace(cfg, trace)
    {
      hide Run, SafeTrace;
      while next < |events|
        invariant Synced(Starting, "", 0) || Finished()
        decreases |events| - next
      {
        RunKeeps(cfg, events[..next]);
        var flow := TryConnect();
        if flow.Normal? {
          ghost var key;
          flow, key := AcceptConnection();
          if flow.Normal? {
            flow := Serve(key);
          }
        }
        if flow.Threw? {
          Close();
        }
      }
      if Synced(Starting, "", 0) {
        Ending(Starting, "", 0);
      }
      RunKeeps(cfg, events);
    }
  }
}
