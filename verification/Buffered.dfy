/** The buffered connection: messages collected in a buffer that is written out as one network write. */
module Buffered {
  import opened Basics

  /** How a network write ends: all sent, or an error after part of the bytes went out. */
  datatype Outcome = Sent | Timeout(partial: nat) | Broken(partial: nat)

  /** The connection: whether it is open, the buffer and the size at which it is written out. */
  datatype Conn = Conn(live: bool, buffer: seq<Byte>, size: int)

  datatype Event = Write(msg: seq<Byte>, net: Outcome) | Flush(net: Outcome) | SetConn(live: bool)

  /** A network write, with the bytes that got out: all of the buffer, or what a failing write let through. */
  datatype Attempt = Good(bytes: seq<Byte>) | Leak(bytes: seq<Byte>)

  /** The connection with its history: the bytes the other side got, the network writes that succeeded, all
      network writes, the messages whose `Write` returned no error and how many bytes failing writes let
      through. */
  datatype History = History(conn: Conn, delivered: seq<Byte>, writes: seq<seq<Byte>>, attempts: seq<Attempt>,
                             accepted: seq<seq<Byte>>, wasted: nat)

  function Least(a: nat, b: nat): (n: nat)
    ensures n <= a && n <= b
  {
    if a < b then a else b
  }

  /** The bytes that get out in a network write of `bytes`. */
  function Out(bytes: seq<Byte>, net: Outcome): (got: seq<Byte>)
  {
    if net.Sent? then bytes else bytes[..Least(net.partial, |bytes|)]
  }

  predicate MustWrite(c: Conn, msg: seq<Byte>)
  {
    |c.buffer| + |msg| > c.size && c.live
  }

  function AfterWrite(c: Conn, msg: seq<Byte>, net: Outcome): (d: Conn)
  {
    if !MustWrite(c, msg) then c.(buffer := c.buffer + msg)
    else if net.Sent? then c.(buffer := msg)
    else c.(live := false)
  }

  /** A timeout keeps the connection, another error closes it; both keep the buffer. */
  function AfterFlush(c: Conn, net: Outcome): (d: Conn)
  {
    if |c.buffer| == 0 || !c.live || net.Timeout? then c
    else if net.Sent? then c.(buffer := [])
    else c.(live := false)
  }

  /** A network write of the buffer. */
  function Sending(h: History, net: Outcome): (g: History)
  {
    var got := Out(h.conn.buffer, net);
    h.(delivered := h.delivered + got,
       writes := if net.Sent? then h.writes + [h.conn.buffer] else h.writes,
       attempts := h.attempts + [if net.Sent? then Good(got) else Leak(got)],
       wasted := if net.Sent? then h.wasted else h.wasted + |got|)
  }

  function Step(h: History, e: Event): (g: History)
  {
    match e
    case Write(msg, net) =>
      var tries := MustWrite(h.conn, msg);
      var g := if tries then Sending(h, net) else h;
      g.(conn := AfterWrite(h.conn, msg, net),
         accepted := if tries && !net.Sent? then h.accepted else h.accepted + [msg])
    case Flush(net) =>
      var g := if |h.conn.buffer| > 0 && h.conn.live then Sending(h, net) else h;
      g.(conn := AfterFlush(h.conn, net))
    case SetConn(live) => h.(conn := h.conn.(live := live))
  }

  function Run(live: bool, size: int, es: seq<Event>): (h: History)
    decreases |es|
  {
    if |es| == 0 then History(Conn(live, [], size), [], [], [], [], 0)
    else Step(Run(live, size, es[..|es| - 1]), es[|es| - 1])
  }

  function Flat(ms: seq<seq<Byte>>): (bs: seq<Byte>)
    decreases |ms|
  {
    if |ms| == 0 then [] else Flat(ms[..|ms| - 1]) + ms[|ms| - 1]
  }

  lemma FlatSnoc(ms: seq<seq<Byte>>, m: seq<Byte>)
    ensures Flat(ms + [m]) == Flat(ms) + m
  {
    assert (ms + [m])[..|ms|] == ms;
  }

  class BufferedNetpoolConn {
    var live: bool
    var writebuffer: seq<Byte>
    const buffersize: int

    ghost function Model(): (c: Conn)
      reads this
    {
      Conn(live, writebuffer, buffersize)
    }

    constructor (live: bool, buffersize: int)
      ensures Model() == Conn(live, [], if buffersize > 0 then buffersize else 512)
    {
      this.live, writebuffer := live, [];
      this.buffersize := if buffersize > 0 then buffersize else 512;
    }

    method SetConn(live: bool)
      modifies this
      ensures Model() == old(Model()).(live := live)
    {
      this.live := live;
    }

    /** Returns whether there was an error, and the bytes that went out. */
    method Write(b: seq<Byte>, net: Outcome) returns (err: bool, sent: seq<Byte>)
      modifies this
      ensures Model() == AfterWrite(old(Model()), b, net)
      ensures err <==> MustWrite(old(Model()), b) && !net.Sent?
      ensures sent == if MustWrite(old(Model()), b) then Out(old(writebuffer), net) else []
      ensures !err && live ==> |writebuffer| <= buffersize || writebuffer == b
    {
      err, sent := false, [];
      if |writebuffer| + |b| > buffersize && live {
        sent := Out(writebuffer, net);
        if !net.Sent? {
          live := false;
          return true, sent;
        }
        writebuffer := [];
      }
      writebuffer := writebuffer + b;
    }

    method Flush(net: Outcome) returns (err: bool, sent: seq<Byte>)
      modifies this
      ensures Model() == AfterFlush(old(Model()), net)
      ensures err <==> |old(writebuffer)| > 0 && old(live) && !net.Sent?
      ensures sent == if |old(writebuffer)| > 0 && old(live) then Out(old(writebuffer), net) else []
    {
      err, sent := false, [];
      if |writebuffer| > 0 && live {
        sent := Out(writebuffer, net);
        if !net.Sent? {
          if net.Timeout? {
            return true, sent;
          }
          live := false;
          return true, sent;
        }
        writebuffer := [];
      }
    }
  }

  // Conservation

  /** The bytes out and the bytes held are the bytes accepted plus those that failing writes let through;
      when there are none of those, they are the accepted messages in order. */
  ghost predicate Conserves(h: History)
  {
    && |h.delivered| + |h.conn.buffer| == |Flat(h.accepted)| + h.wasted
    && (h.wasted == 0 ==> h.delivered + h.conn.buffer == Flat(h.accepted))
  }

  lemma SendingConserves(h: History, net: Outcome)
    requires Conserves(h)
    ensures net.Sent? ==> Conserves(Sending(h, net).(conn := h.conn.(buffer := [])))
    ensures !net.Sent? ==> Conserves(Sending(h, net))
  {
  }

  lemma AppendConserves(h: History, msg: seq<Byte>)
    requires Conserves(h)
    ensures Conserves(h.(conn := h.conn.(buffer := h.conn.buffer + msg), accepted := h.accepted + [msg]))
  {
    FlatSnoc(h.accepted, msg);
    assert h.delivered + (h.conn.buffer + msg) == h.delivered + h.conn.buffer + msg;
  }

  lemma LiveConserves(h: History, live: bool)
    requires Conserves(h)
    ensures Conserves(h.(conn := h.conn.(live := live)))
  {
  }

  lemma StepConserves(h: History, e: Event)
    requires Conserves(h)
    ensures Conserves(Step(h, e))
  {
    hide Conserves, Flat;
    match e
    case Write(msg, net) =>
      SendingConserves(h, net);
      if !MustWrite(h.conn, msg) {
        AppendConserves(h, msg);
      } else if net.Sent? {
        AppendConserves(Sending(h, net).(conn := h.conn.(buffer := [])), msg);
        assert [] + msg == msg;
      } else {
        LiveConserves(Sending(h, net), false);
      }
    case Flush(net) =>
      SendingConserves(h, net);
      if |h.conn.buffer| > 0 && h.conn.live && !net.Sent? {
        LiveConserves(Sending(h, net), net.Timeout?);
        assert Sending(h, net).conn.(live := true) == h.conn || !h.conn.live;
      }
    case SetConn(live) => LiveConserves(h, live);
  }

  /** Over every run, across reconnects: delivered bytes followed by the buffer are exactly the messages
      whose write returned no error, in order, if and only if no failing network write let bytes through. */
  lemma {:induction false} RunConserves(live: bool, size: int, es: seq<Event>)
    ensures var h := Run(live, size, es);
            && Conserves(h)
            && (h.delivered + h.conn.buffer == Flat(h.accepted) <==> h.wasted == 0)
    decreases |es|
  {
    hide Step;
    if |es| > 0 {
      RunConserves(live, size, es[..|es| - 1]);
      StepConserves(Run(live, size, es[..|es| - 1]), es[|es| - 1]);
    }
  }

  // What failing writes let through

  function Bytes(tries: seq<Attempt>): (bs: seq<Byte>)
    decreases |tries|
  {
    if |tries| == 0 then [] else Bytes(tries[..|tries| - 1]) + tries[|tries| - 1].bytes
  }

  function Goods(tries: seq<Attempt>): (ws: seq<seq<Byte>>)
    decreases |tries|
  {
    if |tries| == 0 then []
    else
      var a := tries[|tries| - 1];
      Goods(tries[..|tries| - 1]) + (if a.Good? then [a.bytes] else [])
  }

  function Leaked(tries: seq<Attempt>): (n: nat)
    decreases |tries|
  {
    if |tries| == 0 then 0
    else
      var a := tries[|tries| - 1];
      Leaked(tries[..|tries| - 1]) + (if a.Leak? then |a.bytes| else 0)
  }

  /** Every leak is the start of the next good write, or of `buffer` if there is none after it. */
  predicate LeaksLead(tries: seq<Attempt>, buffer: seq<Byte>)
    decreases |tries|
  {
    |tries| == 0
    || var init, a := tries[..|tries| - 1], tries[|tries| - 1];
       if a.Good? then LeaksLead(init, a.bytes) else a.bytes <= buffer && LeaksLead(init, buffer)
  }

  /** What was delivered is the good writes with the leaks in between, each leak the start of what was then
      sent again. */
  ghost predicate Told(h: History)
  {
    && h.delivered == Bytes(h.attempts) && h.writes == Goods(h.attempts) && h.wasted == Leaked(h.attempts)
    && LeaksLead(h.attempts, h.conn.buffer)
  }

  lemma {:induction false} LongerLead(tries: seq<Attempt>, buffer: seq<Byte>, more: seq<Byte>)
    requires LeaksLead(tries, buffer) && buffer <= more
    ensures LeaksLead(tries, more)
    decreases |tries|
  {
    if |tries| > 0 && tries[|tries| - 1].Leak? {
      LongerLead(tries[..|tries| - 1], buffer, more);
    }
  }

  lemma SendingTold(h: History, net: Outcome)
    requires Told(h)
    ensures net.Sent? ==> Told(Sending(h, net).(conn := h.conn.(buffer := [])))
    ensures !net.Sent? ==> Told(Sending(h, net))
  {
    var g := Sending(h, net);
    assert g.attempts[..|g.attempts| - 1] == h.attempts;
  }

  lemma GrowTold(h: History, msg: seq<Byte>)
    requires Told(h)
    ensures Told(h.(conn := h.conn.(buffer := h.conn.buffer + msg), accepted := h.accepted + [msg]))
  {
    LongerLead(h.attempts, h.conn.buffer, h.conn.buffer + msg);
  }

  lemma SameTold(h: History, g: History)
    requires Told(h) && g == h.(conn := g.conn, accepted := g.accepted) && g.conn.buffer == h.conn.buffer
    ensures Told(g)
  {
  }

  lemma StepTold(h: History, e: Event)
    requires Told(h)
    ensures Told(Step(h, e))
  {
    hide Told;
    var g := Step(h, e);
    if e.Write? {
      SendingTold(h, e.net);
      if !MustWrite(h.conn, e.msg) {
        GrowTold(h, e.msg);
      } else if e.net.Sent? {
        GrowTold(Sending(h, e.net).(conn := h.conn.(buffer := [])), e.msg);
        assert [] + e.msg == e.msg;
      } else {
        SameTold(Sending(h, e.net), g);
      }
    } else if e.Flush? && |h.conn.buffer| > 0 && h.conn.live {
      SendingTold(h, e.net);
      if !e.net.Sent? {
        SameTold(Sending(h, e.net), g);
      }
    } else {
      SameTold(h, g);
    }
  }

  /** Over every run the bytes out are the good network writes, in order, with what failing writes let through
      in between; those parts have `wasted` bytes in all, and each is the start of the next good write, or of
      the buffer when none has followed. */
  lemma {:induction false} RunLeaks(live: bool, size: int, es: seq<Event>)
    ensures Told(Run(live, size, es))
    decreases |es|
  {
    hide Step;
    if |es| > 0 {
      RunLeaks(live, size, es[..|es| - 1]);
      StepTold(Run(live, size, es[..|es| - 1]), es[|es| - 1]);
    }
  }

  // Network writes are whole messages

  function Concat(groups: seq<seq<seq<Byte>>>): (ms: seq<seq<Byte>>)
    decreases |groups|
  {
    if |groups| == 0 then [] else Concat(groups[..|groups| - 1]) + groups[|groups| - 1]
  }

  /** The accepted messages, in order, are the groups followed by the messages still held; each successful
      network write is one group and the buffer is what is held. */
  ghost predicate Cut(h: History, groups: seq<seq<seq<Byte>>>, held: seq<seq<Byte>>)
  {
    && |groups| == |h.writes|
    && (forall i :: 0 <= i < |groups| ==> h.writes[i] == Flat(groups[i]))
    && h.conn.buffer == Flat(held)
    && Concat(groups) + held == h.accepted
  }

  ghost predicate Whole(h: History)
  {
    exists groups, held :: Cut(h, groups, held)
  }

  lemma SentCut(h: History, groups: seq<seq<seq<Byte>>>, held: seq<seq<Byte>>)
    requires Cut(h, groups, held)
    ensures Cut(Sending(h, Sent).(conn := h.conn.(buffer := [])), groups + [held], [])
  {
    hide Flat;
    assert (groups + [held])[..|groups|] == groups;
    assert Concat(groups + [held]) + [] == Concat(groups) + held;
    assert Flat([]) == [] by { NoneFlat(); }
  }

  lemma NoneFlat()
    ensures Flat([]) == []
  {
  }

  lemma AppendCut(h: History, groups: seq<seq<seq<Byte>>>, held: seq<seq<Byte>>, msg: seq<Byte>)
    requires Cut(h, groups, held)
    ensures Cut(h.(conn := h.conn.(buffer := h.conn.buffer + msg), accepted := h.accepted + [msg]), groups,
                held + [msg])
  {
    hide Flat;
    FlatSnoc(held, msg);
  }

  lemma SameCut(h: History, g: History, groups: seq<seq<seq<Byte>>>, held: seq<seq<Byte>>)
    requires Cut(h, groups, held) && g.writes == h.writes && g.accepted == h.accepted && g.conn.buffer == h.conn.buffer
    ensures Whole(g)
  {
    hide Flat;
    assert Cut(g, groups, held);
  }

  lemma StepWhole(h: History, e: Event)
    requires Whole(h)
    ensures Whole(Step(h, e))
  {
    hide Cut;
    var groups, held :| Cut(h, groups, held);
    var g := Step(h, e);
    var sent := Sending(h, Sent).(conn := h.conn.(buffer := []));
    SentCut(h, groups, held);
    if e.Write? && !MustWrite(h.conn, e.msg) {
      AppendCut(h, groups, held, e.msg);
      SameCut(h.(conn := h.conn.(buffer := h.conn.buffer + e.msg), accepted := h.accepted + [e.msg]), g, groups,
              held + [e.msg]);
    } else if e.Write? && e.net.Sent? {
      AppendCut(sent, groups + [held], [], e.msg);
      SameCut(sent.(conn := sent.conn.(buffer := sent.conn.buffer + e.msg), accepted := sent.accepted + [e.msg]), g,
              groups + [held], [] + [e.msg]);
    } else if e.Flush? && e.net.Sent? && |h.conn.buffer| > 0 && h.conn.live {
      SameCut(sent, g, groups + [held], []);
    } else {
      SameCut(h, g, groups, held);
    }
  }

  /** Over every run each successful network write, and the buffer, is a run of whole accepted messages,
      and together in order they are all of them. */
  lemma {:induction false} RunWhole(live: bool, size: int, es: seq<Event>)
    ensures Whole(Run(live, size, es))
    decreases |es|
  {
    hide Step;
    if |es| == 0 {
      assert Cut(Run(live, size, es), [], []);
    } else {
      RunWhole(live, size, es[..|es| - 1]);
      StepWhole(Run(live, size, es[..|es| - 1]), es[|es| - 1]);
    }
  }

  // When the network is used and when the connection is lost

  /** A write reaches the network exactly when the connection is live and the message does not fit behind what
      is held; otherwise it is only kept. A flush does so exactly when the connection is live and something is
      held. */
  lemma TriesExactly(h: History, e: Event)
    ensures var g := Step(h, e);
            && (|g.attempts| == |h.attempts| || |g.attempts| == |h.attempts| + 1)
            && (|g.attempts| > |h.attempts| <==>
                h.conn.live && ((e.Write? && |h.conn.buffer + e.msg| > h.conn.size)
                                || (e.Flush? && h.conn.buffer != [])))
            && (e.Write? && |g.attempts| == |h.attempts| ==>
                  g.conn.buffer == h.conn.buffer + e.msg && g.delivered == h.delivered)
  {
  }

  /** What an event delivers: nothing without a network write, the held bytes after a good one, and the first of
      them, as many as the network took, after a failing one. */
  lemma DeliversExactly(h: History, e: Event)
    ensures var g := Step(h, e);
            var held := h.conn.buffer;
            && h.delivered <= g.delivered
            && var out := g.delivered[|h.delivered|..];
               if |g.attempts| == |h.attempts| then out == []
               else if e.net.Sent? then out == held
               else out <= held && |out| == if e.net.partial < |held| then e.net.partial else |held|
  {
  }

  /** The connection is live after an event exactly when it was set so, or was live and no network write failed
      but for a flush that timed out; and a live connection is never gained but by setting it. */
  lemma LiveExactly(h: History, e: Event)
    ensures var g := Step(h, e);
            var failed := |g.attempts| > |h.attempts| && g.attempts[|h.attempts|].Leak?;
            g.conn.live <==>
              if e.SetConn? then e.live else h.conn.live && !(failed && !(e.Flush? && e.net.Timeout?))
  {
  }

  /** Over every run nothing goes out while the connection is not live. */
  lemma {:induction false} DeadIsSilent(h: History, es: seq<Event>)
    requires !h.conn.live && forall i :: 0 <= i < |es| ==> !es[i].SetConn?
    ensures var g := Steps(h, es); !g.conn.live && g.delivered == h.delivered && g.attempts == h.attempts
    decreases |es|
  {
    if |es| > 0 {
      DeadIsSilent(h, es[..|es| - 1]);
    }
  }

  function Steps(h: History, es: seq<Event>): (g: History)
    decreases |es|
  {
    if |es| == 0 then h else Step(Steps(h, es[..|es| - 1]), es[|es| - 1])
  }
}
