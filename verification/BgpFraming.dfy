/**
 Reading BGP messages off a byte stream: the accumulator, the loop that pops whole
 messages after every read, and what the router makes of what the speaker writes.
 */
module BgpFraming {
  import opened Common
  import opened Checksums
  import opened VipProtocol
  import opened BgpMessages

  const MIN_MESSAGE := 19
  const MAX_MESSAGE := 4096

  /** What is left in the buffer, and the message popped. */
  function Taken(buf: seq<byte>): (r: (seq<byte>, Option<seq<byte>>))
    ensures r.1.Some? ==> |r.0| < |buf|
  {
    if |buf| < MIN_MESSAGE then (buf, None)
    else if buf[..16] != Marker() then (buf[1..], None)
    else
      var len: int := Word(buf, 16);
      if !(MIN_MESSAGE <= len <= MAX_MESSAGE) then (buf[1..], None)
      else if |buf| < len then (buf, None)
      else (buf[len..], Some(buf[..len]))
  }

  /** The buffer, the messages popped, and the notification that ended the session. */
  datatype Reader = Reader(incoming: seq<byte>, popped: seq<seq<byte>>, closed: Option<(byte, byte)>)

  function Then(m: seq<byte>, r: Reader): Reader {
    r.(popped := [m] + r.popped)
  }

  /** The loop after a read: messages are popped until there is none, or a NOTIFICATION
      closes the session and the buffer goes with it. */
  function Drain(buf: seq<byte>): Reader
    decreases |buf|
  {
    var (rest, msg) := Taken(buf);
    match msg
    case None => Reader(rest, [], None)
    case Some(m) =>
      if ParseNotification(m).Some? then Reader([], [m], ParseNotification(m)) else Then(m, Drain(rest))
  }

  function Feed(r: Reader, chunk: seq<byte>): Reader {
    if r.closed.Some? then r
    else
      var d := Drain(r.incoming + chunk);
      Reader(d.incoming, r.popped + d.popped, d.closed)
  }

  /** One read after the other. */
  function FeedAll(chunks: seq<seq<byte>>): Reader {
    if chunks == [] then Reader([], [], None)
    else Feed(FeedAll(chunks[..|chunks| - 1]), chunks[|chunks| - 1])
  }

  /** The session's side of it, with the accumulator updated in place. */
  class Incoming {
    var incoming: seq<byte>

    constructor ()
      ensures incoming == []
    {
      incoming := [];
    }

    method TakeMessage() returns (msg: Option<seq<byte>>)
      modifies this
      ensures (incoming, msg) == Taken(old(incoming))
    {
      if |incoming| < MIN_MESSAGE {
        return None;
      }
      if incoming[..16] != Marker() {
        incoming := incoming[1..];
        return None;
      }
      var len: int := Word(incoming, 16);
      if !(MIN_MESSAGE <= len <= MAX_MESSAGE) {
        incoming := incoming[1..];
        return None;
      }
      if |incoming| < len {
        return None;
      }
      msg := Some(incoming[..len]);
      incoming := incoming[len..];
    }

    /** A read of `chunk`: the messages popped, and the notification that ends the session. */
    method Read(chunk: seq<byte>) returns (popped: seq<seq<byte>>, closed: Option<(byte, byte)>)
      modifies this
      ensures var d := Drain(old(incoming) + chunk);
              popped == d.popped && closed == d.closed && (closed.None? ==> incoming == d.incoming)
    {
      incoming := incoming + chunk;
      ghost var d := Drain(incoming);
      popped := [];
      closed := None;
      var more := true;
      while more
        invariant more ==> closed.None? && Drain(incoming).closed == d.closed && Drain(incoming).incoming == d.incoming
        invariant more ==> d.popped == popped + Drain(incoming).popped
        invariant !more ==> popped == d.popped && closed == d.closed && (closed.None? ==> incoming == d.incoming)
        decreases more, |incoming|
      {
        var msg := TakeMessage();
        if msg.None? {
          more := false;
        } else {
          popped := popped + [msg.value];
          if ParseNotification(msg.value).Some? {
            closed := ParseNotification(msg.value);
            more := false;
          }
        }
      }
    }
  }

  // ----- streams of well-formed messages -----

  /** All-ones marker and true length within the bounds. */
  predicate Framed(m: seq<byte>) {
    19 <= |m| <= 4096 && (forall i | 0 <= i < 16 :: m[i] == 255) && 256 * m[16] as int + m[17] as int == |m|
  }

  function Join(parts: seq<seq<byte>>): seq<byte> {
    if parts == [] then [] else parts[0] + Join(parts[1..])
  }

  predicate AllFramed(msgs: seq<seq<byte>>) {
    forall m | m in msgs :: Framed(m)
  }

  /** `buf` is what has arrived of the stream of `msgs`. */
  predicate Arrived(buf: seq<byte>, msgs: seq<seq<byte>>) {
    AllFramed(msgs) && buf <= Join(msgs)
  }

  /** A part of the first message is not popped, and no byte of it is dropped. */
  lemma PartIsKept(buf: seq<byte>, msgs: seq<seq<byte>>)
    requires Arrived(buf, msgs) && (msgs != [] ==> |buf| < |msgs[0]|)
    ensures Taken(buf) == (buf, None)
    ensures msgs != [] ==> buf < msgs[0]
  {
    if msgs != [] {
      var m := msgs[0];
      assert m in msgs;
      assert buf == Join(msgs)[..|buf|] == m[..|buf|];
      if MIN_MESSAGE <= |buf| {
        assert buf[..16] == m[..16];
        assert Word(buf, 16) == Word(m, 16);
      }
    }
  }

  /** The first message is popped as soon as it is complete. */
  lemma WholeIsTaken(buf: seq<byte>, msgs: seq<seq<byte>>)
    requires Arrived(buf, msgs) && msgs != [] && |msgs[0]| <= |buf|
    ensures Taken(buf) == (buf[|msgs[0]|..], Some(msgs[0])) && Arrived(buf[|msgs[0]|..], msgs[1..])
    ensures buf == msgs[0] + buf[|msgs[0]|..]
  {
    var m := msgs[0];
    assert m in msgs;
    assert Join(msgs) == m + Join(msgs[1..]);
    assert buf[..|m|] == Join(msgs)[..|m|] == m;
    TakenWhole(buf, m);
    assert buf[|m|..] == Join(msgs)[..|buf|][|m|..];
    assert Join(msgs)[|m|..] == Join(msgs[1..]);
  }

  lemma TakenWhole(buf: seq<byte>, m: seq<byte>)
    requires Framed(m) && m <= buf
    ensures Taken(buf) == (buf[|m|..], Some(m))
  {
    assert buf[..|m|] == m;
    assert buf[..16] == buf[..|m|][..16];
    assert Word(buf, 16) == Word(m, 16);
  }

  /** Exactly what one call does with a buffer: it pops the message that stands at the front, it
      drops a byte where none can stand there, and otherwise it waits. */
  lemma TakenExactly(buf: seq<byte>)
    ensures forall m: seq<byte> :: Taken(buf).1 == Some(m) <==> Framed(m) && m <= buf
    ensures Taken(buf).1.Some? ==> Taken(buf).0 == buf[|Taken(buf).1.value|..]
    ensures Taken(buf).1.None? ==>
              Taken(buf).0 == if CannotStart(buf) then buf[1..] else buf
  {
    if 19 <= |buf| {
      assert buf[..16] == Marker() <==> forall i | 0 <= i < 16 :: buf[i] == 255;
      forall m: seq<byte> | Framed(m) && m <= buf
        ensures Taken(buf).1 == Some(m)
      {
        TakenWhole(buf, m);
      }
      if Taken(buf).1.Some? {
        var m := Taken(buf).1.value;
        assert forall i | 0 <= i < 18 :: m[i] == buf[i];
      }
    }
  }

  /** No message can start here: there is no marker of sixteen ones, or the length behind it is
      below 19 or above 4096. */
  predicate CannotStart(buf: seq<byte>) {
    19 <= |buf| &&
    ((exists i | 0 <= i < 16 :: buf[i] != 255) || !(19 <= 256 * buf[16] as int + buf[17] as int <= 4096))
  }

  lemma FeedThen(m: seq<byte>, r: Reader, b: seq<byte>)
    ensures Feed(Then(m, r), b) == Then(m, Feed(r, b))
  {
    if r.closed.None? {
      var d := Drain(r.incoming + b);
      assert ([m] + r.popped) + d.popped == [m] + (r.popped + d.popped);
    }
  }

  lemma {:induction false} JoinSnoc(parts: seq<seq<byte>>)
    requires parts != []
    ensures Join(parts) == Join(parts[..|parts| - 1]) + parts[|parts| - 1]
  {
    var n := |parts| - 1;
    if n == 0 {
      assert parts[1..] == [] && parts[..0] == [];
    } else {
      JoinSnoc(parts[1..]);
      assert parts[1..][..n - 1] == parts[..n][1..];
    }
  }

  // ----- exactly when the cuts do not matter -----

  /** One read of the whole stream drops a byte only where no further step would follow: it
      pops messages up to a NOTIFICATION, or until nothing more can be popped or dropped. */
  predicate InStep(x: seq<byte>)
    decreases |x|
  {
    var (rest, msg) := Taken(x);
    match msg
    case None => Taken(rest) == (rest, None)
    case Some(m) => ParseNotification(m).Some? || InStep(rest)
  }

  /** What a longer buffer does to a step: a message popped is popped, and a byte dropped is
      dropped. */
  lemma TakenOfMore(a: seq<byte>, b: seq<byte>)
    ensures Taken(a).1.Some? ==> Taken(a + b) == (Taken(a).0 + b, Taken(a).1)
    ensures Taken(a).1.None? && Taken(a).0 != a ==> Taken(a + b) == (a[1..] + b, None)
  {
    if MIN_MESSAGE <= |a| {
      assert (a + b)[..16] == a[..16] && Word(a + b, 16) == Word(a, 16);
      var len: int := Word(a, 16);
      if a[..16] != Marker() || !(MIN_MESSAGE <= len <= MAX_MESSAGE) {
        assert (a + b)[1..] == a[1..] + b;
      } else if len <= |a| {
        assert (a + b)[..len] == a[..len] && (a + b)[len..] == a[len..] + b;
      }
    }
  }

  /** A part of a buffer that waits waits, too. */
  lemma PartWaits(a: seq<byte>, b: seq<byte>)
    requires Taken(a + b) == (a + b, None)
    ensures Taken(a) == (a, None)
  {
    if MIN_MESSAGE <= |a| {
      assert (a + b)[..16] == a[..16] && Word(a + b, 16) == Word(a, 16);
      assert (a + b)[1..] != a + b;
    }
  }

  /** Reading in two goes is reading in one, for a stream in step. */
  lemma {:induction false} DrainInTwo(a: seq<byte>, b: seq<byte>)
    requires InStep(a + b)
    ensures InStep(a) && Feed(Drain(a), b) == Drain(a + b)
    decreases |a|
  {
    var (rest, msg) := Taken(a);
    TakenOfMore(a, b);
    match msg
    case Some(m) =>
      if ParseNotification(m).None? {
        DrainInTwo(rest, b);
        FeedThen(m, Drain(rest), b);
      }
    case None =>
      if rest != a {
        PartWaits(rest, b);
        assert Drain(rest + b) == Reader(rest + b, [], None);
      } else {
        assert Feed(Drain(a), b) == Drain(a + b);
      }
  }

  /** A stream in step is read alike however it is cut. */
  lemma {:induction false} InStepCuts(chunks: seq<seq<byte>>)
    requires InStep(Join(chunks))
    ensures FeedAll(chunks) == Drain(Join(chunks))
    decreases |chunks|
  {
    if chunks != [] {
      var before, last := chunks[..|chunks| - 1], chunks[|chunks| - 1];
      JoinSnoc(chunks);
      DrainInTwo(Join(before), last);
      InStepCuts(before);
    }
  }

  /** A stream that is not has a cut into two reads that makes a difference. */
  lemma {:induction false} OutOfStepCut(x: seq<byte>) returns (a: seq<byte>, b: seq<byte>)
    requires !InStep(x)
    ensures a + b == x && a != [] && b != [] && Feed(Drain(a), b) != Drain(x)
    decreases |x|
  {
    var (rest, msg) := Taken(x);
    if msg.Some? {
      var m := msg.value;
      var c;
      c, b := OutOfStepCut(rest);
      a := m + c;
      CutBehind(x, m, c, b);
    } else {
      a, b := x[..MIN_MESSAGE], x[MIN_MESSAGE..];
      CutInside(x, a, b);
    }
  }

  lemma DrainPops(x: seq<byte>, m: seq<byte>, rest: seq<byte>)
    requires Taken(x) == (rest, Some(m)) && ParseNotification(m).None?
    ensures Drain(x) == Then(m, Drain(rest))
  {
  }

  lemma TakenIsFront(x: seq<byte>, m: seq<byte>, rest: seq<byte>)
    requires Taken(x) == (rest, Some(m))
    ensures x == m + rest && m != []
  {
  }

  lemma CutBehind(x: seq<byte>, m: seq<byte>, c: seq<byte>, b: seq<byte>)
    requires Taken(x) == (c + b, Some(m)) && ParseNotification(m).None? && Feed(Drain(c), b) != Drain(c + b)
    ensures (m + c) + b == x && m != [] && Feed(Drain(m + c), b) != Drain(x)
  {
    TakenIsFront(x, m, c + b);
    var a := m + c;
    assert x == a + b;
    TakenBehind(a, b, m, c);
    DrainPops(a, m, c);
    DrainPops(x, m, c + b);
    FeedThen(m, Drain(c), b);
    ThenKeepsApart(m, Feed(Drain(c), b), Drain(c + b));
  }

  lemma ThenKeepsApart(m: seq<byte>, f: Reader, d: Reader)
    ensures Then(m, f) == Then(m, d) <==> f == d
  {
    assert f.popped == ([m] + f.popped)[1..] && d.popped == ([m] + d.popped)[1..];
  }

  /** A message at the front does not need what is behind it. */
  lemma TakenBehind(a: seq<byte>, b: seq<byte>, m: seq<byte>, c: seq<byte>)
    requires a == m + c && Taken(a + b) == (c + b, Some(m))
    ensures Taken(a) == (c, Some(m))
  {
    assert (a + b)[..16] == a[..16] && Word(a + b, 16) == Word(a, 16);
    assert a[..|m|] == m && a[|m|..] == c;
  }

  /** Where one read drops a byte and stops although it could go on, a second read goes on. */
  lemma CutInside(x: seq<byte>, a: seq<byte>, b: seq<byte>)
    requires Taken(x).1.None? && Taken(Taken(x).0) != (Taken(x).0, None)
    requires |a| == MIN_MESSAGE && a + b == x
    ensures b != [] && Feed(Drain(a), b) != Drain(x)
  {
    var rest := Taken(x).0;
    assert rest == x[1..] && MIN_MESSAGE <= |rest|;
    assert x[..16] == a[..16] && Word(x, 16) == Word(a, 16);
    assert Taken(a) == (a[1..], None);
    assert a[1..] + b == x[1..];
    var d := Drain(rest);
    assert [] + d.popped == d.popped;
    assert Feed(Drain(a), b) == d;
    if Taken(rest).1.None? {
      assert d.incoming == Taken(rest).0 != rest;
    } else {
      assert d.popped != [];
    }
  }

  /** Exactly when framing does not depend on chunking, for every byte stream: if and only if
      the stream is in step. */
  lemma CutsDoNotMatterExactly(x: seq<byte>)
    ensures InStep(x) <==> forall chunks | Join(chunks) == x :: FeedAll(chunks) == Drain(x)
    ensures !InStep(x) ==> exists a, b :: a != [] && b != [] && Join([a, b]) == x && FeedAll([a, b]) != Drain(x)
  {
    if InStep(x) {
      forall chunks | Join(chunks) == x
        ensures FeedAll(chunks) == Drain(x)
      {
        InStepCuts(chunks);
      }
    } else {
      var a, b := OutOfStepCut(x);
      FirstRead(a);
      TwoReads(a, b);
    }
  }

  /** What has arrived of a stream of well-formed messages is in step. */
  lemma {:induction false} ArrivedInStep(buf: seq<byte>, msgs: seq<seq<byte>>)
    requires Arrived(buf, msgs)
    ensures InStep(buf)
    decreases |msgs|
  {
    if msgs == [] || |buf| < |msgs[0]| {
      PartIsKept(buf, msgs);
    } else {
      WholeIsTaken(buf, msgs);
      if ParseNotification(msgs[0]).None? {
        ArrivedInStep(buf[|msgs[0]|..], msgs[1..]);
      }
    }
  }

  /** Framing of well-formed messages does not depend on chunking. However the stream of any
      list of them, or a part of it, is cut into reads, the reader ends up as after one read
      of it all. */
  lemma ChunkingDoesNotMatter(chunks: seq<seq<byte>>, msgs: seq<seq<byte>>)
    requires Arrived(Join(chunks), msgs)
    ensures FeedAll(chunks) == Drain(Join(chunks))
  {
    ArrivedInStep(Join(chunks), msgs);
    InStepCuts(chunks);
  }

  predicate Quiet(msgs: seq<seq<byte>>) {
    forall m | m in msgs :: ParseNotification(m).None?
  }

  /** Between reads, exactly the whole messages have been popped, and what is left is a
      strict prefix of the next one. */
  lemma {:induction false} WholeMessagesPopped(buf: seq<byte>, msgs: seq<seq<byte>>) returns (k: nat)
    requires Arrived(buf, msgs) && Quiet(msgs)
    ensures k <= |msgs| && Drain(buf) == Reader(Drain(buf).incoming, msgs[..k], None)
    ensures buf == Join(msgs[..k]) + Drain(buf).incoming
    ensures if k < |msgs| then Drain(buf).incoming < msgs[k] else Drain(buf).incoming == []
    decreases |msgs|
  {
    if msgs == [] || |buf| < |msgs[0]| {
      PartIsKept(buf, msgs);
      k := 0;
    } else {
      WholeIsTaken(buf, msgs);
      var rest := buf[|msgs[0]|..];
      var j := WholeMessagesPopped(rest, msgs[1..]);
      k := j + 1;
      assert msgs[0] in msgs;
      OneMore(msgs, j, rest);
    }
  }

  lemma OneMore(msgs: seq<seq<byte>>, j: nat, rest: seq<byte>)
    requires msgs != [] && j <= |msgs| - 1
    ensures msgs[..j + 1] == [msgs[0]] + msgs[1..][..j]
    ensures forall x :: Join(msgs[1..][..j]) + x == rest ==> Join(msgs[..j + 1]) + x == msgs[0] + rest
  {
    assert msgs[..j + 1] == [msgs[0]] + msgs[1..][..j];
    assert msgs[..j + 1][1..] == msgs[1..][..j];
    forall x | Join(msgs[1..][..j]) + x == rest
      ensures Join(msgs[..j + 1]) + x == msgs[0] + rest
    {
      assert (msgs[0] + Join(msgs[1..][..j])) + x == msgs[0] + (Join(msgs[1..][..j]) + x);
    }
  }

  /** The messages up to the first notification, with it. */
  function UpToNotification(msgs: seq<seq<byte>>): Reader {
    if msgs == [] then Reader([], [], None)
    else if ParseNotification(msgs[0]).Some? then Reader([], [msgs[0]], ParseNotification(msgs[0]))
    else Then(msgs[0], UpToNotification(msgs[1..]))
  }

  lemma {:induction false} StreamIsPopped(msgs: seq<seq<byte>>)
    requires AllFramed(msgs)
    ensures Drain(Join(msgs)) == UpToNotification(msgs)
  {
    if msgs == [] {
      PartIsKept([], msgs);
    } else {
      WholeIsTaken(Join(msgs), msgs);
      assert Join(msgs)[|msgs[0]|..] == Join(msgs[1..]);
      StreamIsPopped(msgs[1..]);
    }
  }

  /** Any list of well-formed messages, concatenated and cut anywhere, is popped as exactly
      that list, up to the notification that ends it. */
  lemma AnyCutPopsAll(chunks: seq<seq<byte>>, msgs: seq<seq<byte>>)
    requires AllFramed(msgs) && Join(chunks) == Join(msgs)
    ensures FeedAll(chunks) == UpToNotification(msgs)
    ensures Quiet(msgs) ==> FeedAll(chunks) == Reader([], msgs, None)
  {
    ChunkingDoesNotMatter(chunks, msgs);
    StreamIsPopped(msgs);
    if Quiet(msgs) {
      QuietPopsAll(msgs);
    }
  }

  lemma {:induction false} QuietPopsAll(msgs: seq<seq<byte>>)
    requires Quiet(msgs)
    ensures UpToNotification(msgs) == Reader([], msgs, None)
  {
    if msgs != [] {
      QuietPopsAll(msgs[1..]);
    }
  }

  // ----- from the speaker to the router -----

  /** What a session writes: keepalives, and one UPDATE per route change. */
  datatype Written = Alive | Change(update: Update)

  function Encode(w: Written, nextHop: Ipv4, asn: uint16): seq<byte> {
    match w
    case Alive => EncodeKeepalive()
    case Change(u) => EncodeUpdate(u, nextHop, asn)
  }

  function EncodeAll(ws: seq<Written>, nextHop: Ipv4, asn: uint16): (r: seq<seq<byte>>)
    ensures |r| == |ws|
  {
    if ws == [] then [] else [Encode(ws[0], nextHop, asn)] + EncodeAll(ws[1..], nextHop, asn)
  }

  /** The route changes in order. */
  function Routes(ws: seq<Written>): seq<Update> {
    if ws == [] then [] else (if ws[0].Change? then [ws[0].update] else []) + Routes(ws[1..])
  }

  function Decode(msgs: seq<seq<byte>>): seq<Update> {
    if msgs == [] then [] else Changes(msgs[0]) + Decode(msgs[1..])
  }

  lemma MessageIsFramed(t: MessageType, body: seq<byte>)
    requires HEADER_LEN + |body| <= MAX_MESSAGE
    ensures Framed(Message(t, body)) && (t != Notification ==> ParseNotification(Message(t, body)).None?)
  {
    HeaderIsParsed(t, body);
  }

  lemma EncodeFacts(w: Written, nextHop: Ipv4, asn: uint16)
    ensures var m := Encode(w, nextHop, asn);
            Framed(m) && ParseNotification(m).None? && Changes(m) == if w.Change? then [w.update] else []
  {
    match w
    case Alive =>
      HeaderIsParsed(Keepalive, []);
      MessageIsFramed(Keepalive, []);
    case Change(u) =>
      UpdateRoundTrip(u, nextHop, asn);
      match u
      case Reach(vip) => MessageIsFramed(UpdateMessage, AnnounceBody(vip, 32, nextHop, asn));
      case Unreach(vip) => MessageIsFramed(UpdateMessage, WithdrawBody(vip, 32));
  }

  lemma {:induction false} EncodeAllFacts(ws: seq<Written>, nextHop: Ipv4, asn: uint16)
    ensures var ms := EncodeAll(ws, nextHop, asn);
            AllFramed(ms) && Quiet(ms) && Decode(ms) == Routes(ws)
  {
    if ws != [] {
      EncodeFacts(ws[0], nextHop, asn);
      EncodeAllFacts(ws[1..], nextHop, asn);
    }
  }

  /** End to end: whatever a session writes, and however the network cuts it into reads, the
      router decodes exactly the announcements and withdrawals, in order, and ends up with
      the routes they make. */
  lemma RouterGetsEveryChange(ws: seq<Written>, nextHop: Ipv4, asn: uint16, chunks: seq<seq<byte>>, routes: set<Vip>)
    requires Join(chunks) == Join(EncodeAll(ws, nextHop, asn))
    ensures Decode(FeedAll(chunks).popped) == Routes(ws)
    ensures ApplyAll(routes, Decode(FeedAll(chunks).popped)) == ApplyAll(routes, Routes(ws))
  {
    EncodeAllFacts(ws, nextHop, asn);
    AnyCutPopsAll(chunks, EncodeAll(ws, nextHop, asn));
  }

  // ----- streams that are not well-formed -----

  /** A concrete stream out of step: one call drops one byte and the
      loop stops, so a keepalive behind a stray byte waits for the next read, or is popped
      when its last byte comes in a read of its own. */
  lemma GarbageDependsOnCuts()
    ensures var k := EncodeKeepalive();
            && Join([[0] + k]) == Join([[0] + k[..18], k[18..]])
            && FeedAll([[0] + k]) == Reader(k, [], None)
            && FeedAll([[0] + k[..18], k[18..]]) == Reader([], [k], None)
  {
    var k := EncodeKeepalive();
    EncodeFacts(Alive, 0, 0);
    StrayByte(k);
    assert k[..18] + k[18..] == k;
    StrayByte(k[..18]);
    FirstRead([0] + k);
    FirstRead([0] + k[..18]);
    TwoReads([0] + k[..18], k[18..]);
    WholeIsTaken(k, [k]);
    PartIsKept([], []);
    assert Join([k]) == k && k[19..] == [];
  }

  lemma StrayByte(rest: seq<byte>)
    requires 18 <= |rest|
    ensures Drain([0] + rest) == Reader(rest, [], None)
  {
    assert ([0] + rest)[..16][0] == 0;
    assert ([0] + rest)[1..] == rest;
  }

  lemma FirstRead(a: seq<byte>)
    ensures FeedAll([a]) == Drain(a) && Join([a]) == a
  {
    assert [a][..0] == [] && [a][1..] == [];
    assert [] + a == a;
    assert [] + Drain(a).popped == Drain(a).popped;
  }

  lemma TwoReads(a: seq<byte>, b: seq<byte>)
    ensures FeedAll([a, b]) == Feed(FeedAll([a]), b) && Join([a, b]) == a + b
  {
    assert [a, b][..1] == [a] && [a, b][1..] == [b] && [b][1..] == [];
    assert Join([b]) == b;
  }
}
