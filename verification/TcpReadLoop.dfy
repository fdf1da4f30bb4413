/** server/tcp/tcp.go: what the handlers of one accepted connection are told, and with which
    bytes. One buffer is reused for every read; each handler call gets a copy. */
module TcpReadLoop {

  newtype byte = x: int | 0 <= x < 256

  /** `Ended` is any of the three errors that end the loop: end of file, closed pipe, closed
      connection. */
  datatype ReadError = Clean | Ended | Broken

  /** The result of one read. A reader may return bytes together with an error. */
  datatype Read = Read(bytes: seq<byte>, err: ReadError)

  /** A handler call with the array it is given. */
  datatype Event = OnConnect | OnData(payload: array<byte>) | OnError | OnClose

  datatype Call = Call(handler: nat, event: Event)

  /** What a handler call tells the handler. */
  datatype Notice = Connected | Data(bytes: seq<byte>) | Failed | Closed

  ghost predicate Tells(e: Event, n: Notice)
    reads if e.OnData? then {e.payload} else {}
  {
    match e
    case OnConnect => n == Connected
    case OnData(payload) => n == Data(payload[..])
    case OnError => n == Failed
    case OnClose => n == Closed
  }

  /** The events carry the notices now, in arrays out of `given`. */
  ghost predicate Told(events: seq<Event>, notices: seq<Notice>, given: set<array<byte>>)
    reads given
  {
    && |events| == |notices|
    && (forall i :: 0 <= i < |events| && events[i].OnData? ==> events[i].payload in given)
    && (forall i :: 0 <= i < |events| ==> Tells(events[i], notices[i]))
  }

  /** No two calls are given the same array. */
  predicate Separate(events: seq<Event>) {
    forall i, j :: 0 <= i < j < |events| && events[i].OnData? && events[j].OnData? ==>
      events[i].payload != events[j].payload
  }

  function Given(given: set<array<byte>>, e: Event): set<array<byte>> {
    if e.OnData? then given + {e.payload} else given
  }

  lemma {:induction false} OneMore(events: seq<Event>, notices: seq<Notice>, given: set<array<byte>>,
                                   e: Event, n: Notice)
    requires Told(events, notices, given) && Separate(events) && Tells(e, n) && (e.OnData? ==> e.payload !in given)
    ensures Told(events + [e], notices + [n], Given(given, e)) && Separate(events + [e])
    ensures (events + [e])[..|events|] == events
  {
  }

  /** The number of reads before the one that ends the loop, if any does. */
  function Until(rs: seq<Read>): (n: nat)
    ensures n <= |rs| && forall r :: r in rs[..n] ==> r.err != Ended
    ensures n < |rs| ==> rs[n].err == Ended
  {
    if rs == [] || rs[0].err == Ended then 0
    else
      var n := Until(rs[1..]);
      assert rs[..n + 1] == [rs[0]] + rs[1..][..n];
      n + 1
  }

  function NoticeOf(r: Read): seq<Notice> {
    match r.err
    case Ended => []
    case Broken => [Failed]
    case Clean => if |r.bytes| > 0 then [Data(r.bytes)] else []
  }

  function Body(rs: seq<Read>): seq<Notice> {
    if rs == [] then [] else Body(rs[..|rs| - 1]) + NoticeOf(rs[|rs| - 1])
  }

  /** What each handler is told over the reads of a connection. */
  function Notices(rs: seq<Read>): seq<Notice> {
    [Connected] + Body(rs[..Until(rs)]) + if Until(rs) < |rs| then [Closed] else []
  }

  /** Every handler is called with the event, in order of registration. */
  function Round(handlers: nat, e: Event): seq<Call> {
    seq(handlers, (h: nat) => Call(h, e))
  }

  function Rounds(handlers: nat, events: seq<Event>): seq<Call> {
    if events == [] then [] else Rounds(handlers, events[..|events| - 1]) + Round(handlers, events[|events| - 1])
  }

  /** The events of one handler. */
  function Seen(calls: seq<Call>, h: nat): seq<Event> {
    if calls == [] then []
    else
      var n := |calls| - 1;
      Seen(calls[..n], h) + if calls[n].handler == h then [calls[n].event] else []
  }

  /** The reader fills a prefix of the buffer and may scribble on the rest. */
  method Fill(buff: array<byte>, r: Read)
    requires |r.bytes| <= buff.Length
    modifies buff
    ensures buff[..|r.bytes|] == r.bytes
  {
    for i := 0 to |r.bytes|
      invariant buff[..i] == r.bytes[..i]
    {
      buff[i] := r.bytes[i];
    }
  }

  method Copy(buff: array<byte>, n: nat) returns (dst: array<byte>)
    requires n <= buff.Length
    ensures fresh(dst) && dst[..] == buff[..n]
  {
    dst := new byte[n];
    for i := 0 to n
      invariant dst[..i] == buff[..i]
    {
      dst[i] := buff[i];
    }
  }

  /** One event goes to all handlers; `n` is what it tells them now. */
  method Tell(handlers: nat, e: Event, ghost n: Notice, calls: seq<Call>,
              ghost events: seq<Event>, ghost notices: seq<Notice>, ghost given: set<array<byte>>)
    returns (calls': seq<Call>)
    requires calls == Rounds(handlers, events) && Told(events, notices, given) && Separate(events)
    requires Tells(e, n) && (e.OnData? ==> e.payload !in given)
    ensures calls' == Rounds(handlers, events + [e])
    ensures Told(events + [e], notices + [n], Given(given, e)) && Separate(events + [e])
  {
    OneMore(events, notices, given, e, n);
    calls' := calls;
    for h := 0 to handlers
      invariant calls' == calls + Round(handlers, e)[..h]
    {
      calls' := calls' + [Call(h, e)];
    }
  }

  lemma {:induction false} NextRead(rs: seq<Read>, i: nat)
    requires i <= Until(rs)
    ensures i < |rs| && rs[i].err != Ended ==>
              i + 1 <= Until(rs) && Body(rs[..i + 1]) == Body(rs[..i]) + NoticeOf(rs[i])
    ensures i == |rs| || rs[i].err == Ended ==>
              Notices(rs) == [Connected] + Body(rs[..i]) + if i < |rs| then [Closed] else []
  {
    if i < |rs| {
      assert rs[..i + 1][..i] == rs[..i];
      assert i < Until(rs) ==> rs[i] in rs[..Until(rs)];
    }
  }

  /** The loop body for a read that does not end the loop. */
  method Pass(handlers: nat, buff: array<byte>, r: Read, calls: seq<Call>,
              ghost events: seq<Event>, ghost notices: seq<Notice>, ghost given: set<array<byte>>)
    returns (calls': seq<Call>, ghost events': seq<Event>, ghost given': set<array<byte>>)
    requires r.err != Ended && |r.bytes| <= buff.Length && buff !in given
    requires calls == Rounds(handlers, events) && Told(events, notices, given) && Separate(events)
    modifies buff
    ensures calls' == Rounds(handlers, events') && Told(events', notices + NoticeOf(r), given') && Separate(events')
    ensures given <= given' && fresh(given' - given) && buff !in given'
  {
    hide Told, Separate, Rounds;
    calls', events', given' := calls, events, given;
    Fill(buff, r);
    if r.err == Broken {
      calls' := Tell(handlers, OnError, Failed, calls, events, notices, given);
      events' := events + [OnError];
    } else if |r.bytes| > 0 {
      var dst := Copy(buff, |r.bytes|);
      calls' := Tell(handlers, OnData(dst), Data(r.bytes), calls, events, notices, given);
      events', given' := events + [OnData(dst)], given + {dst};
    } else {
      assert notices + NoticeOf(r) == notices;
    }
  }

  lemma NothingRead(rs: seq<Read>)
    ensures [Connected] + Body(rs[..0]) == [Connected]
  {
  }

  method Connect(handlers: nat) returns (calls: seq<Call>)
    ensures calls == Rounds(handlers, [OnConnect]) && Told([OnConnect], [Connected], {}) && Separate([OnConnect])
  {
    calls := Tell(handlers, OnConnect, Connected, [], [], [], {});
    assert [] + [OnConnect] == [OnConnect] && [] + [Connected] == [Connected];
  }

  method Close(handlers: nat, calls: seq<Call>,
               ghost events: seq<Event>, ghost notices: seq<Notice>, ghost given: set<array<byte>>)
    returns (calls': seq<Call>)
    requires calls == Rounds(handlers, events) && Told(events, notices, given) && Separate(events)
    ensures calls' == Rounds(handlers, events + [OnClose]) && Told(events + [OnClose], notices + [Closed], given)
    ensures Separate(events + [OnClose])
  {
    calls' := Tell(handlers, OnClose, Closed, calls, events, notices, given);
  }

  /** The life of one connection, from the accept to the end of the reading goroutine or to
      the last read so far. The errors of handlers are only logged. */
  method Serve(handlers: nat, bufferSize: nat, rs: seq<Read>)
    returns (calls: seq<Call>, ghost events: seq<Event>, ghost given: set<array<byte>>)
    requires bufferSize >= 1 && forall r :: r in rs ==> |r.bytes| <= bufferSize
    ensures calls == Rounds(handlers, events)
    ensures Told(events, Notices(rs), given) && Separate(events) && fresh(given)
  {
    hide *;
    NothingRead(rs);
    calls := Connect(handlers);
    events, given := [OnConnect], {};
    ghost var notices := [Connected];
    var buff := new byte[bufferSize];
    var i := 0;
    while i < |rs| && rs[i].err != Ended
      invariant 0 <= i <= Until(rs)
      invariant notices == [Connected] + Body(rs[..i])
      invariant calls == Rounds(handlers, events) && Told(events, notices, given) && Separate(events)
      invariant fresh(given) && buff !in given
    {
      NextRead(rs, i);
      calls, events, given := Pass(handlers, buff, rs[i], calls, events, notices, given);
      notices := notices + NoticeOf(rs[i]);
      i := i + 1;
    }
    NextRead(rs, i);
    if i < |rs| {
      calls := Close(handlers, calls, events, notices, given);
      events, notices := events + [OnClose], notices + [Closed];
    }
    assert notices == Notices(rs);
  }

  lemma {:induction false} SeenConcat(a: seq<Call>, b: seq<Call>, h: nat)
    ensures Seen(a + b, h) == Seen(a, h) + Seen(b, h)
  {
    if b == [] {
      assert a + b == a;
    } else {
      assert (a + b)[..|a + b| - 1] == a + b[..|b| - 1];
      SeenConcat(a, b[..|b| - 1], h);
    }
  }

  lemma {:induction false} SeenRound(n: nat, h: nat, e: Event)
    ensures Seen(Round(n, e), h) == if h < n then [e] else []
  {
    if n > 0 {
      assert Round(n, e)[..n - 1] == Round(n - 1, e);
      SeenRound(n - 1, h, e);
    }
  }

  /** Every handler sees all the events in the same order. */
  lemma {:induction false} SameForAll(handlers: nat, events: seq<Event>, h: nat)
    requires h < handlers
    ensures Seen(Rounds(handlers, events), h) == events
    decreases |events|
  {
    if events != [] {
      var n := |events| - 1;
      var init, last := Rounds(handlers, events[..n]), Round(handlers, events[n]);
      assert Rounds(handlers, events) == init + last;
      hide *;
      SameForAll(handlers, events[..n], h);
      SeenRound(handlers, h, events[n]);
      SeenConcat(init, last, h);
    }
  }

  lemma {:induction false} BodyPlain(rs: seq<Read>)
    ensures forall n :: n in Body(rs) ==> n.Data? || n.Failed?
  {
    if rs != [] {
      BodyPlain(rs[..|rs| - 1]);
    }
  }

  /** One OnConnect, first; at most one OnClose, last, exactly when a read ended the loop. */
  lemma {:induction false} Order(rs: seq<Read>)
    ensures var ns := Notices(rs);
            && ns[0] == Connected
            && (forall i :: 0 < i < |ns| - 1 ==> ns[i].Data? || ns[i].Failed?)
            && (1 < |ns| ==> ns[|ns| - 1] != Connected)
            && (ns[|ns| - 1] == Closed <==> exists r :: r in rs && r.err == Ended)
  {
    var ns, body := Notices(rs), Body(rs[..Until(rs)]);
    BodyPlain(rs[..Until(rs)]);
    assert forall i :: 1 <= i < 1 + |body| ==> ns[i] == body[i - 1] && body[i - 1] in body;
    if Until(rs) < |rs| {
      assert rs[Until(rs)] in rs;
    } else {
      assert rs[..Until(rs)] == rs;
    }
  }

  /** The read makes the loop call its handlers: it failed without ending the loop, or returned
      bytes. */
  predicate Speaks(r: Read) {
    r.err == Broken || (r.err == Clean && r.bytes != [])
  }

  /** The notices are one for each of the first n reads that speaks, in order: an error for a
      failed one, else its bytes. Notice j is for read at[j]. */
  ghost predicate OneEach(rs: seq<Read>, n: nat, ns: seq<Notice>, at: seq<nat>)
    requires n <= |rs|
  {
    && |at| == |ns|
    && (forall j :: 0 <= j < |at| ==>
          at[j] < n && Speaks(rs[at[j]]) && ns[j] == if rs[at[j]].err == Broken then Failed else Data(rs[at[j]].bytes))
    && (forall j, k :: 0 <= j < k < |at| ==> at[j] < at[k])
    && (forall i: nat :: i < n && Speaks(rs[i]) ==> i in at)
  }

  lemma {:induction false} NextEach(rs: seq<Read>, n: nat, ns: seq<Notice>, at: seq<nat>) returns (at': seq<nat>)
    requires n < |rs| && rs[n].err != Ended && OneEach(rs, n, ns, at)
    ensures OneEach(rs, n + 1, ns + NoticeOf(rs[n]), at')
  {
    if Speaks(rs[n]) {
      at' := at + [n];
    } else {
      at' := at;
      assert ns + NoticeOf(rs[n]) == ns;
    }
  }

  lemma NoneYet(rs: seq<Read>)
    ensures OneEach(rs, 0, Body(rs[..0]), [])
  {
  }

  lemma BeforeTheEnd(rs: seq<Read>, i: nat)
    requires i < Until(rs)
    ensures rs[i].err != Ended
  {
    assert rs[..Until(rs)][i] in rs[..Until(rs)];
  }

  lemma {:induction false} EachUpTo(rs: seq<Read>, n: nat) returns (at: seq<nat>)
    requires n <= Until(rs)
    ensures OneEach(rs, n, Body(rs[..n]), at)
  {
    hide *;
    if n == 0 {
      NoneYet(rs);
      at := [];
    } else {
      var i: nat := n - 1;
      var before := EachUpTo(rs, i);
      BeforeTheEnd(rs, i);
      NextRead(rs, i);
      at := NextEach(rs, i, Body(rs[..i]), before);
    }
  }

  /** What a handler is told between OnConnect and OnClose: of the reads before the one that ends
      the loop, each failed one is an OnError and each that returned bytes is an OnData with just
      those bytes, in order; an empty read is nothing. */
  lemma {:induction false} EachRead(rs: seq<Read>) returns (ns: seq<Notice>, at: seq<nat>)
    ensures Notices(rs) == [Connected] + ns + if Until(rs) < |rs| then [Closed] else []
    ensures OneEach(rs, Until(rs), ns, at)
  {
    ns := Body(rs[..Until(rs)]);
    at := EachUpTo(rs, Until(rs));
  }

  function Payload(ns: seq<Notice>): seq<byte> {
    if ns == [] then []
    else Payload(ns[..|ns| - 1]) + if ns[|ns| - 1].Data? then ns[|ns| - 1].bytes else []
  }

  /** The bytes that reads returned, with or without an error. */
  function Returned(rs: seq<Read>): seq<byte> {
    if rs == [] then [] else Returned(rs[..|rs| - 1]) + rs[|rs| - 1].bytes
  }

  /** The bytes that reads returned without an error. */
  function Received(rs: seq<Read>): seq<byte> {
    if rs == [] then []
    else Received(rs[..|rs| - 1]) + if rs[|rs| - 1].err == Clean then rs[|rs| - 1].bytes else []
  }

  /** The reads the loop performs, the ending one included. */
  function Performed(rs: seq<Read>): seq<Read> {
    if Until(rs) < |rs| then rs[..Until(rs) + 1] else rs
  }

  lemma {:induction false} BodyPayload(rs: seq<Read>)
    ensures Payload(Body(rs)) == Received(rs)
  {
    if rs != [] {
      var init, last := rs[..|rs| - 1], rs[|rs| - 1];
      BodyPayload(init);
      var ns := NoticeOf(last);
      if ns == [] {
        assert Body(rs) == Body(init);
      } else {
        assert Body(rs)[..|Body(rs)| - 1] == Body(init);
      }
    }
  }

  lemma {:induction false} PayloadConcat(a: seq<Notice>, b: seq<Notice>)
    ensures Payload(a + b) == Payload(a) + Payload(b)
  {
    if b == [] {
      assert a + b == a;
    } else {
      assert (a + b)[..|a + b| - 1] == a + b[..|b| - 1];
      PayloadConcat(a, b[..|b| - 1]);
    }
  }

  lemma PayloadOne(n: Notice)
    ensures Payload([n]) == if n.Data? then n.bytes else []
  {
    assert [n][..0] == [];
  }

  lemma {:induction false} OpenPayload(rs: seq<Read>)
    ensures Payload([Connected] + Body(rs)) == Received(rs)
  {
    PayloadOne(Connected);
    PayloadConcat([Connected], Body(rs));
    BodyPayload(rs);
  }

  lemma {:induction false} EndedReceivesNothing(rs: seq<Read>, r: Read)
    requires r.err == Ended
    ensures Received(rs + [r]) == Received(rs)
  {
    assert (rs + [r])[..|rs|] == rs;
  }

  /** The payloads concatenated are the bytes of the error-free reads, in order. */
  lemma {:induction false} Delivered(rs: seq<Read>)
    ensures Payload(Notices(rs)) == Received(Performed(rs))
  {
    hide Payload, Received, Body;
    var u := Until(rs);
    OpenPayload(rs[..u]);
    if u < |rs| {
      PayloadOne(Closed);
      PayloadConcat([Connected] + Body(rs[..u]), [Closed]);
      EndedReceivesNothing(rs[..u], rs[u]);
      assert Performed(rs) == rs[..u] + [rs[u]];
    } else {
      assert rs[..u] == rs;
      assert Notices(rs) == [Connected] + Body(rs);
    }
  }

  /** A read that reports an error returns no bytes. So do the connections of a plain listener,
      and the buffered reader in front of them adds nothing to an error. */
  predicate ErrorsCarryNothing(rs: seq<Read>) {
    forall r :: r in rs && r.err != Clean ==> r.bytes == []
  }

  lemma {:induction false} ReceivedLength(rs: seq<Read>)
    ensures |Received(rs)| <= |Returned(rs)|
    ensures |Received(rs)| == |Returned(rs)| ==> ErrorsCarryNothing(rs)
    ensures ErrorsCarryNothing(rs) ==> Received(rs) == Returned(rs)
  {
    if rs != [] {
      ReceivedLength(rs[..|rs| - 1]);
      assert forall r :: r in rs <==> r in rs[..|rs| - 1] || r == rs[|rs| - 1];
    }
  }

  /** Over any reader, the handlers get every byte the reads returned if and only if no
      failing read returned any: the loop looks at the bytes only when there is no error. */
  lemma DeliveredAllIff(rs: seq<Read>)
    ensures Payload(Notices(rs)) == Returned(Performed(rs)) <==> ErrorsCarryNothing(Performed(rs))
  {
    Delivered(rs);
    ReceivedLength(Performed(rs));
  }

  /** So over this server's connections the payloads are all the bytes read so far. */
  lemma AllDelivered(rs: seq<Read>)
    requires ErrorsCarryNothing(rs)
    ensures Payload(Notices(rs)) == Returned(Performed(rs))
  {
    assert forall r :: r in Performed(rs) ==> r in rs;
    DeliveredAllIff(rs);
  }
}
