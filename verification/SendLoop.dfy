/**
 * The control loop's send side: encryption in lockstep, fragmentation into
 * First Middle* Last, one owner of the wire drawing from several queues; and the
 * reassembler that reads the wire back.
 */
module SendLoop {
  import opened Bytes
  import opened Framing
  import opened ReadFrame

  const MAX_FRAGMENT: nat := 0x1F00

  datatype Message = Message(channel: U8, id: U16, payload: Buf)

  /**
   * One direction of a TLS connection. Records are numbered on both sides; record k
   * decrypts only as record k. Encryption may fail.
   */
  datatype Cipher = Cipher(enc: (nat, Buf) -> Option<Buf>, dec: (nat, Buf) -> Option<Buf>)

  // The peers' record numbers agree, and a fragment's ciphertext fits a frame.
  ghost predicate Lockstep(t: Cipher) {
    forall k: nat, p: Buf :: |p| <= MAX_FRAGMENT && t.enc(k, p).Some? ==>
      t.dec(k, t.enc(k, p).value) == Some(p) && |t.enc(k, p).value| < 0x1_0000
  }

  // ---- sending one message ----------------------------------------------------------------

  function Plain(m: Message): (p: Buf)
    ensures |p| == 2 + |m.payload|
  {
    BE(m.id, 2) + m.payload
  }

  // Channel-open requests and responses carry the control flag on service channels.
  predicate ChannelControl(m: Message) { m.channel != 0 && (m.id == 7 || m.id == 8) }

  /** The frames a send put on the wire, the next record number, and whether it finished. */
  datatype Sent = Sent(frames: seq<Frame>, next: nat, ok: bool)

  function FragmentEnd(n: nat, offset: nat): (e: nat)
    requires offset <= n
    ensures offset < n ==> offset < e <= n
  {
    if offset + MAX_FRAGMENT <= n then offset + MAX_FRAGMENT else n
  }

  function Fragment(channel: U8, n: nat, offset: nat, ciphertext: Buf): Frame
    requires offset <= n
  {
    var kind := if offset == 0 then First else if FragmentEnd(n, offset) == n then Last else Middle;
    Frame(channel, kind, false, true, if kind == First then Some(n % 0x1_0000_0000) else None, ciphertext)
  }

  function Fragments(t: Cipher, k: nat, channel: U8, plain: Buf, offset: nat): Sent
    requires offset <= |plain|
    decreases |plain| - offset
  {
    if offset == |plain| then Sent([], k, true)
    else
      var end := FragmentEnd(|plain|, offset);
      var c := t.enc(k, plain[offset..end]);
      if c == None then Sent([], k, false)
      else
        var rest := Fragments(t, k + 1, channel, plain, end);
        Sent([Fragment(channel, |plain|, offset, c.value)] + rest.frames, rest.next, rest.ok)
  }

  function SendOne(t: Cipher, k: nat, m: Message): Sent {
    var plain := Plain(m);
    if |plain| <= MAX_FRAGMENT then
      var c := t.enc(k, plain);
      if c == None then Sent([], k, false)
      else Sent([Frame(m.channel, Bulk, ChannelControl(m), true, None, c.value)], k + 1, true)
    else Fragments(t, k, m.channel, plain, 0)
  }

  class Connection {
    const cipher: Cipher
    var sealed: nat        // records encrypted so far
    var wire: seq<Frame>   // frames written so far

    constructor (t: Cipher)
      ensures cipher == t && sealed == 0 && wire == []
    {
      cipher, sealed, wire := t, 0, [];
    }

    method EncryptPayload(plain: Buf) returns (c: Option<Buf>)
      modifies this`sealed
      ensures c == cipher.enc(old(sealed), plain)
      ensures sealed == old(sealed) + if c.Some? then 1 else 0
    {
      c := cipher.enc(sealed, plain);
      if c.Some? {
        sealed := sealed + 1;
      }
    }

    method WriteFrame(f: Frame)
      modifies this`wire
      ensures wire == old(wire) + [f]
    {
      wire := wire + [f];
    }

    method SendEncrypted(m: Message) returns (ok: bool)
      modifies this
      ensures var s := SendOne(cipher, old(sealed), m);
              wire == old(wire) + s.frames && sealed == s.next && ok == s.ok
    {
      var plain := Plain(m);
      if |plain| <= MAX_FRAGMENT {
        var c := EncryptPayload(plain);
        if c == None {
          return false;
        }
        WriteFrame(Frame(m.channel, Bulk, ChannelControl(m), true, None, c.value));
        return true;
      }
      ghost var all := SendOne(cipher, sealed, m);
      var offset := 0;
      while offset < |plain|
        invariant offset <= |plain|
        invariant var rest := Fragments(cipher, sealed, m.channel, plain, offset);
                  old(wire) + all.frames == wire + rest.frames && all.next == rest.next && all.ok == rest.ok
      {
        var end := FragmentEnd(|plain|, offset);
        var c := EncryptPayload(plain[offset..end]);
        if c == None {
          assert wire + [] == wire;
          return false;
        }
        ghost var rest := Fragments(cipher, sealed, m.channel, plain, end);
        Associative(wire, [Fragment(m.channel, |plain|, offset, c.value)], rest.frames);
        WriteFrame(Fragment(m.channel, |plain|, offset, c.value));
        offset := end;
      }
      assert wire + [] == wire;
      return true;
    }
  }

  // ---- reassembly -----------------------------------------------------------------------------

  type Accum = Option<(U8, Buf)>

  datatype Taken = More(accum: Accum) | Done(message: Message) | Broken

  function MessageOf(channel: U8, plain: Buf): Taken {
    if |plain| < 2 then Broken
    else Done(Message(channel, FromBE(plain[..2]) % 0x1_0000, plain[2..]))
  }

  // What one decrypted frame does to the message under construction.
  function Take(accum: Accum, f: Frame, plain: Buf): Taken {
    match f.kind
    case Bulk => MessageOf(f.channel, plain)
    case First => More(Some((f.channel, plain)))
    case Middle => if accum == None then More(None) else More(Some((accum.value.0, accum.value.1 + plain)))
    case Last => if accum == None then Broken else MessageOf(accum.value.0, accum.value.1 + plain)
  }

  // All messages on the wire, from record k on; each starts with an empty accumulator.
  function Messages(t: Cipher, k: nat, accum: Accum, frames: seq<Frame>): Result<seq<Message>>
    decreases |frames|
  {
    if frames == [] then Ok([])
    else if !frames[0].encrypted then Messages(t, k, accum, frames[1..])
    else
      var plain := t.dec(k, frames[0].payload);
      if plain == None then Err
      else match Take(accum, frames[0], plain.value)
        case Broken => Err
        case More(a) => Messages(t, k + 1, a, frames[1..])
        case Done(m) => Prepend(m, Messages(t, k + 1, None, frames[1..]))
  }

  function Prepend(m: Message, r: Result<seq<Message>>): Result<seq<Message>> {
    if r.Err? then Err else Ok([m] + r.value)
  }

  // The receiving end: frames still to be read, records decrypted so far.
  class Receiver {
    const cipher: Cipher
    var frames: seq<Frame>
    var decrypted: nat

    constructor (t: Cipher, fs: seq<Frame>)
      ensures cipher == t && frames == fs && decrypted == 0
    {
      cipher, frames, decrypted := t, fs, 0;
    }

    /** The next whole message; Ok(None) when the wire ends first. */
    method NextMessage() returns (r: Result<Option<Message>>)
      modifies this
      ensures |frames| <= |old(frames)|
      ensures match r
              case Err => Messages(cipher, old(decrypted), None, old(frames)) == Err
              case Ok(None) => Messages(cipher, old(decrypted), None, old(frames)) == Ok([])
              case Ok(Some(m)) =>
                && |frames| < |old(frames)|
                && Messages(cipher, old(decrypted), None, old(frames))
                   == Prepend(m, Messages(cipher, decrypted, None, frames))
    {
      hide Take;
      var accum: Accum := None;
      while frames != []
        invariant |frames| <= |old(frames)|
        invariant Messages(cipher, old(decrypted), None, old(frames)) == Messages(cipher, decrypted, accum, frames)
        decreases |frames|
      {
        var f := frames[0];
        frames := frames[1..];
        if !f.encrypted {
          continue;
        }
        var plain := cipher.dec(decrypted, f.payload);
        if plain == None {
          return Err;
        }
        decrypted := decrypted + 1;
        match Take(accum, f, plain.value) {
          case Broken =>
            return Err;
          case More(a) =>
            accum := a;
          case Done(m) =>
            return Ok(Some(m));
        }
      }
      return Ok(None);
    }
  }

  // ---- one message survives the wire -------------------------------------------------------------

  lemma PlainDecodes(m: Message)
    ensures MessageOf(m.channel, Plain(m)) == Done(m)
  {
    PowersOf256();
    BERoundTrip(m.id, 2);
    assert Plain(m)[..2] == BE(m.id, 2);
    assert Plain(m)[2..] == m.payload;
  }

  // The plaintext: the message id, most significant byte first, then the payload.
  lemma PlainLayout(m: Message)
    ensures Short(Plain(m)[0], Plain(m)[1]) == m.id && Plain(m)[2..] == m.payload
  {
    TwoBytes(m.id);
    assert Plain(m)[0] == BE(m.id, 2)[0] && Plain(m)[1] == BE(m.id, 2)[1];
  }

  lemma OneFrame(t: Cipher, k: nat, accum: Accum, f: Frame, fs: seq<Frame>, plain: Buf)
    requires f.encrypted && t.dec(k, f.payload) == Some(plain)
    ensures Messages(t, k, accum, [f] + fs) ==
            match Take(accum, f, plain)
            case Broken => Err
            case More(a) => Messages(t, k + 1, a, fs)
            case Done(m) => Prepend(m, Messages(t, k + 1, None, fs))
  {
    hide Take;
    assert ([f] + fs)[1..] == fs;
  }

  // From the second fragment on: the rest of the message completes the accumulator.
  lemma {:induction false} FragmentsRejoin(t: Cipher, k: nat, m: Message, offset: nat, later: seq<Frame>)
    returns (a: Accum)
    requires Lockstep(t) && 0 < offset < |Plain(m)|
    ensures var s, plain := Fragments(t, k, m.channel, Plain(m), offset), Plain(m);
            Messages(t, k, Some((m.channel, plain[..offset])), s.frames + later) ==
            if s.ok then Prepend(m, Messages(t, s.next, None, later)) else Messages(t, s.next, a, later)
    decreases |Plain(m)| - offset
  {
    hide Messages, Plain, MessageOf;
    var plain := Plain(m);
    var end := FragmentEnd(|plain|, offset);
    var c := t.enc(k, plain[offset..end]);
    a := Some((m.channel, plain[..offset]));
    if c == None {
      assert [] + later == later;
    } else {
      var f := Fragment(m.channel, |plain|, offset, c.value);
      var rest := Fragments(t, k + 1, m.channel, plain, end);
      assert plain[..offset] + plain[offset..end] == plain[..end];
      Associative([f], rest.frames, later);
      OneFrame(t, k, a, f, rest.frames + later, plain[offset..end]);
      if end == |plain| {
        assert plain[..end] == plain;
        PlainDecodes(m);
        assert [] + later == later;
      } else {
        a := FragmentsRejoin(t, k + 1, m, end, later);
      }
    }
  }

  // One send, whatever the receiver was in the middle of: its message if the send finished,
  // and at most a dropped part of it otherwise.
  lemma SendSurvives(t: Cipher, k: nat, m: Message, before: Accum, later: seq<Frame>) returns (a: Accum)
    requires Lockstep(t)
    ensures var s := SendOne(t, k, m);
            Messages(t, k, before, s.frames + later) ==
            if s.ok then Prepend(m, Messages(t, s.next, None, later)) else Messages(t, s.next, a, later)
  {
    hide Messages, Plain, MessageOf;
    var plain := Plain(m);
    a := before;
    assert [] + later == later;
    if |plain| <= MAX_FRAGMENT {
      var c := t.enc(k, plain);
      if c.Some? {
        PlainDecodes(m);
        OneFrame(t, k, before, SendOne(t, k, m).frames[0], later, plain);
      }
    } else {
      var end := FragmentEnd(|plain|, 0);
      var c := t.enc(k, plain[0..end]);
      if c.Some? {
        var f := Fragment(m.channel, |plain|, 0, c.value);
        var rest := Fragments(t, k + 1, m.channel, plain, end);
        Associative([f], rest.frames, later);
        OneFrame(t, k, before, f, rest.frames + later, plain[..end]);
        a := FragmentsRejoin(t, k + 1, m, end, later);
      }
    }
  }

  // ---- the shape of what is sent ---------------------------------------------------------------

  lemma {:induction false} FragmentAt(t: Cipher, k: nat, channel: U8, plain: Buf, offset: nat, i: nat)
    requires Lockstep(t) && offset <= |plain| && i < |Fragments(t, k, channel, plain, offset).frames|
    ensures var f, o := Fragments(t, k, channel, plain, offset).frames[i], offset + i * MAX_FRAGMENT;
            && o < |plain|
            && t.dec(k + i, f.payload) == Some(plain[o..FragmentEnd(|plain|, o)])
            && |f.payload| < 0x1_0000
            && f == Fragment(channel, |plain|, o, f.payload)
    decreases |plain| - offset
  {
    var end := FragmentEnd(|plain|, offset);
    if i > 0 {
      FragmentAt(t, k + 1, channel, plain, end, i - 1);
    }
  }

  lemma {:induction false} FragmentCount(t: Cipher, k: nat, channel: U8, plain: Buf, offset: nat)
    requires offset <= |plain|
    ensures var s := Fragments(t, k, channel, plain, offset);
            && s.next == k + |s.frames|
            && (s.ok ==> (|s.frames| - 1) * MAX_FRAGMENT < |plain| - offset <= |s.frames| * MAX_FRAGMENT)
            && (!s.ok ==> |s.frames| * MAX_FRAGMENT < |plain| - offset)
    decreases |plain| - offset
  {
    if offset < |plain| {
      FragmentCount(t, k + 1, channel, plain, FragmentEnd(|plain|, offset));
    }
  }

  predicate EncryptedOn(f: Frame, channel: U8, kind: FrameType) {
    f.encrypted && f.channel == channel && f.kind == kind
  }

  // A contiguous whole-message group. The control flag marks channel-open requests and
  // responses (7 and 8) on service channels, and nothing else.
  predicate WholeGroup(fs: seq<Frame>, m: Message) {
    var n := 2 + |m.payload|;
    if n <= 0x1F00 then
      && |fs| == 1 && EncryptedOn(fs[0], m.channel, Bulk)
      && (fs[0].control <==> m.channel != 0 && m.id in {7, 8})
    else
      && |fs| >= 2
      && EncryptedOn(fs[0], m.channel, First) && fs[0].total == Some(n % 0x1_0000_0000)
      && EncryptedOn(fs[|fs| - 1], m.channel, Last)
      && (forall i :: 0 < i < |fs| - 1 ==> EncryptedOn(fs[i], m.channel, Middle))
      && (forall i :: 0 <= i < |fs| ==> !fs[i].control)
  }

  /** A finished send is a Bulk frame, or First Middle* Last with the plaintext's length. */
  lemma SentGroup(t: Cipher, k: nat, m: Message)
    requires Lockstep(t) && SendOne(t, k, m).ok
    ensures WholeGroup(SendOne(t, k, m).frames, m)
    ensures SendOne(t, k, m).next == k + |SendOne(t, k, m).frames|
  {
    hide Fragments, Plain;
    var plain, fs := Plain(m), SendOne(t, k, m).frames;
    if |plain| > MAX_FRAGMENT {
      FragmentCount(t, k, m.channel, plain, 0);
      forall i | 0 <= i < |fs|
        ensures EncryptedOn(fs[i], m.channel, if i == 0 then First else if i == |fs| - 1 then Last else Middle)
        ensures !fs[i].control
      {
        FragmentAt(t, k, m.channel, plain, 0, i);
      }
      FragmentAt(t, k, m.channel, plain, 0, 0);
    }
  }

  // The cap on plaintext chunks and the room in a frame, finished or not.
  lemma SentFrames(t: Cipher, k: nat, m: Message)
    requires Lockstep(t)
    ensures AllWellFormed(SendOne(t, k, m).frames)
    ensures forall i :: 0 <= i < |SendOne(t, k, m).frames| ==>
              var p := t.dec(k + i, SendOne(t, k, m).frames[i].payload);
              p.Some? && |p.value| <= 0x1F00
  {
    hide Fragments, Plain;
    var plain, fs := Plain(m), SendOne(t, k, m).frames;
    if |plain| > MAX_FRAGMENT {
      forall i | 0 <= i < |fs|
        ensures WellFormed(fs[i])
        ensures t.dec(k + i, fs[i].payload).Some? && |t.dec(k + i, fs[i].payload).value| <= MAX_FRAGMENT
      {
        FragmentAt(t, k, m.channel, plain, 0, i);
      }
    }
  }

  // ---- the loop ------------------------------------------------------------------------------------

  datatype Source = Nav | Audio | Video | Reply

  // A batch is sent until one of its messages fails: the messages of a navigation
  // instruction, the replies to one inbound frame, or a single media message.
  type Batch = seq<Message>

  datatype Tagged = Tagged(source: Source, message: Message)

  datatype Loop = Loop(queues: map<Source, seq<Batch>>, sealed: nat, wire: seq<Frame>, log: seq<Tagged>)

  datatype LoopEvent = Arrive(source: Source, batch: Batch) | Turn(source: Source)

  predicate AllQueues(s: Loop) { forall q: Source :: q in s.queues }

  predicate Known(q: Source)
    ensures Known(q)
  {
    match q case Nav => true case Audio => true case Video => true case Reply => true
  }

  function Idle(): (s: Loop)
    ensures AllQueues(s)
  {
    Loop(map q: Source | Known(q) :: [], 0, [], [])
  }

  function SendBatch(t: Cipher, s: Loop, source: Source, batch: Batch): (r: Loop)
    ensures r.queues == s.queues
    decreases |batch|
  {
    if batch == [] then s
    else
      var sent := SendOne(t, s.sealed, batch[0]);
      var s' := s.(sealed := sent.next, wire := s.wire + sent.frames);
      if !sent.ok then s'
      else SendBatch(t, s'.(log := s.log + [Tagged(source, batch[0])]), source, batch[1..])
  }

  // One branch of the select; a branch whose queue is empty is not taken.
  function OnEvent(t: Cipher, s: Loop, e: LoopEvent): (r: Loop)
    requires AllQueues(s)
    ensures AllQueues(r)
  {
    match e
    case Arrive(q, batch) => s.(queues := s.queues[q := s.queues[q] + [batch]])
    case Turn(q) =>
      if s.queues[q] == [] then s
      else SendBatch(t, s.(queues := s.queues[q := s.queues[q][1..]]), q, s.queues[q][0])
  }

  function RunLoop(t: Cipher, s: Loop, es: seq<LoopEvent>): (r: Loop)
    requires AllQueues(s)
    ensures AllQueues(r)
    decreases |es|
  {
    if es == [] then s else RunLoop(t, OnEvent(t, s, es[0]), es[1..])
  }

  class ControlLoop {
    const conn: Connection
    var queues: map<Source, seq<Batch>>
    ghost var log: seq<Tagged>

    ghost function View(): Loop
      reads this, conn
    {
      Loop(queues, conn.sealed, conn.wire, log)
    }

    constructor (t: Cipher)
      ensures View() == Idle() && fresh(conn) && conn.cipher == t
    {
      conn := new Connection(t);
      queues, log := Idle().queues, [];
    }

    method Push(source: Source, batch: Batch)
      requires AllQueues(View())
      modifies this`queues
      ensures View() == OnEvent(conn.cipher, old(View()), Arrive(source, batch))
    {
      queues := queues[source := queues[source] + [batch]];
    }

    method TakeTurn(source: Source)
      requires AllQueues(View())
      modifies this, conn
      ensures View() == OnEvent(conn.cipher, old(View()), Turn(source))
    {
      hide SendOne;
      if queues[source] == [] {
        return;
      }
      var batch := queues[source][0];
      queues := queues[source := queues[source][1..]];
      ghost var goal := SendBatch(conn.cipher, View(), source, batch);
      for i := 0 to |batch|
        invariant SendBatch(conn.cipher, View(), source, batch[i..]) == goal
      {
        assert batch[i..][0] == batch[i] && batch[i..][1..] == batch[i + 1..];
        var ok := conn.SendEncrypted(batch[i]);
        if !ok {
          return;
        }
        log := log + [Tagged(source, batch[i])];
      }
    }
  }

  // s after one more message that was sent whole.
  function Logged(t: Cipher, s: Loop, source: Source, m: Message): Loop {
    var sent := SendOne(t, s.sealed, m);
    s.(sealed := sent.next, wire := s.wire + sent.frames, log := s.log + [Tagged(source, m)])
  }

  // s after all of ms, each sent whole.
  function AllLogged(t: Cipher, s: Loop, source: Source, ms: seq<Message>): Loop
    decreases |ms|
  {
    if ms == [] then s else AllLogged(t, Logged(t, s, source, ms[0]), source, ms[1..])
  }

  /**
   * A batch is sent message by message up to the first that fails: that one leaves its finished
   * fragments on the wire, and nothing behind it is attempted.
   */
  lemma {:induction false} BatchStopsAtFailure(t: Cipher, s: Loop, source: Source, batch: Batch) returns (n: nat)
    ensures n <= |batch|
    ensures var u, r := AllLogged(t, s, source, batch[..n]), SendBatch(t, s, source, batch);
            if n == |batch| then r == u
            else
              var sent := SendOne(t, u.sealed, batch[n]);
              !sent.ok && r == u.(sealed := sent.next, wire := u.wire + sent.frames)
    decreases |batch|
  {
    hide SendOne;
    n := 0;
    if batch != [] && SendOne(t, s.sealed, batch[0]).ok {
      var m := BatchStopsAtFailure(t, Logged(t, s, source, batch[0]), source, batch[1..]);
      n := m + 1;
      assert batch[..n][1..] == batch[1..][..m] && batch[..n][0] == batch[0];
    }
  }

  // ---- the wire carries the log ------------------------------------------------------------------------

  function Untagged(log: seq<Tagged>): seq<Message> {
    if log == [] then [] else [log[0].message] + Untagged(log[1..])
  }

  lemma {:induction false} UntaggedAppend(a: seq<Tagged>, x: Tagged)
    ensures Untagged(a + [x]) == Untagged(a) + [x.message]
    decreases |a|
  {
    if a == [] {
      assert [x][1..] == [];
    } else {
      UntaggedAppend(a[1..], x);
      assert (a + [x])[1..] == a[1..] + [x];
    }
  }

  function PrependAll(ms: seq<Message>, r: Result<seq<Message>>): Result<seq<Message>> {
    if r.Err? then Err else Ok(ms + r.value)
  }

  lemma PrependOneMore(ms: seq<Message>, m: Message, r: Result<seq<Message>>)
    ensures PrependAll(ms, Prepend(m, r)) == PrependAll(ms + [m], r)
  {
    if r.Ok? {
      Associative(ms, [m], r.value);
    }
  }

  // Whatever is sent later, the receiver first gets the log, then that.
  ghost predicate Delivers(t: Cipher, s: Loop) {
    forall later: seq<Frame> :: DeliversBefore(t, s, later)
  }

  ghost predicate DeliversBefore(t: Cipher, s: Loop, later: seq<Frame>) {
    exists a: Accum :: Messages(t, 0, None, s.wire + later) == PrependAll(Untagged(s.log), Messages(t, s.sealed, a, later))
  }

  lemma SendDelivers(t: Cipher, s: Loop, source: Source, m: Message)
    requires Lockstep(t) && Delivers(t, s)
    ensures var sent := SendOne(t, s.sealed, m);
            Delivers(t, s.(sealed := sent.next, wire := s.wire + sent.frames,
                           log := if sent.ok then s.log + [Tagged(source, m)] else s.log))
  {
    hide Messages, SendOne, PrependAll, Prepend, Untagged, Lockstep;
    var sent := SendOne(t, s.sealed, m);
    var s' := s.(sealed := sent.next, wire := s.wire + sent.frames,
                 log := if sent.ok then s.log + [Tagged(source, m)] else s.log);
    forall later: seq<Frame> ensures DeliversBefore(t, s', later) {
      Associative(s.wire, sent.frames, later);
      assert DeliversBefore(t, s, sent.frames + later);
      var a :| Messages(t, 0, None, s.wire + (sent.frames + later))
               == PrependAll(Untagged(s.log), Messages(t, s.sealed, a, sent.frames + later));
      var b := SendSurvives(t, s.sealed, m, a, later);
      UntaggedAppend(s.log, Tagged(source, m));
      var c: Accum := if sent.ok then None else b;
      PrependOneMore(Untagged(s.log), m, Messages(t, sent.next, None, later));
      assert Messages(t, 0, None, s'.wire + later) == PrependAll(Untagged(s'.log), Messages(t, s'.sealed, c, later));
    }
  }

  lemma {:induction false} BatchDelivers(t: Cipher, s: Loop, source: Source, batch: Batch)
    requires Lockstep(t) && Delivers(t, s)
    ensures Delivers(t, SendBatch(t, s, source, batch))
    decreases |batch|
  {
    hide SendOne, Lockstep, Delivers;
    if batch != [] {
      var sent := SendOne(t, s.sealed, batch[0]);
      SendDelivers(t, s, source, batch[0]);
      var s' := s.(sealed := sent.next, wire := s.wire + sent.frames);
      if sent.ok {
        BatchDelivers(t, s'.(log := s.log + [Tagged(source, batch[0])]), source, batch[1..]);
      } else {
        assert s' == s'.(log := s.log);
      }
    }
  }

  lemma SameWireDelivers(t: Cipher, s: Loop, r: Loop)
    requires Delivers(t, s) && r == s.(queues := r.queues)
    ensures Delivers(t, r)
  {
    forall later: seq<Frame> ensures DeliversBefore(t, r, later) {
      assert DeliversBefore(t, s, later);
    }
  }

  lemma {:induction false} RunDelivers(t: Cipher, s: Loop, es: seq<LoopEvent>)
    requires Lockstep(t) && AllQueues(s) && Delivers(t, s)
    ensures Delivers(t, RunLoop(t, s, es))
    decreases |es|
  {
    hide SendBatch, Lockstep, Delivers;
    if es != [] {
      match es[0] {
        case Arrive(q, batch) =>
          SameWireDelivers(t, s, OnEvent(t, s, es[0]));
        case Turn(q) =>
          if s.queues[q] != [] {
            var s' := s.(queues := s.queues[q := s.queues[q][1..]]);
            SameWireDelivers(t, s, s');
            BatchDelivers(t, s', q, s.queues[q][0]);
          }
      }
      RunDelivers(t, OnEvent(t, s, es[0]), es[1..]);
    }
  }

  lemma IdleDelivers(t: Cipher)
    ensures Delivers(t, Idle())
  {
    forall later: seq<Frame> ensures DeliversBefore(t, Idle(), later) {
      assert [] + later == later;
      var r := Messages(t, 0, None, later);
      assert r.Ok? ==> [] + r.value == r.value;
      assert Messages(t, 0, None, Idle().wire + later) == PrependAll(Untagged(Idle().log), Messages(t, Idle().sealed, None, later));
    }
  }

  /**
   * Main result: for any arrivals and any choice of branches, the reassembler returns exactly
   * the messages whose send finished, in the order they were sent.
   */
  lemma WireCarriesLog(t: Cipher, es: seq<LoopEvent>)
    requires Lockstep(t)
    ensures Messages(t, 0, None, RunLoop(t, Idle(), es).wire) == Ok(Untagged(RunLoop(t, Idle(), es).log))
  {
    hide RunLoop, Lockstep;
    IdleDelivers(t);
    RunDelivers(t, Idle(), es);
    var s := RunLoop(t, Idle(), es);
    assert DeliversBefore(t, s, []);
    assert s.wire + [] == s.wire;
    assert Untagged(s.log) + [] == Untagged(s.log);
  }

  // ---- the queues lose nothing ---------------------------------------------------------------------------

  ghost predicate NeverFails(t: Cipher) {
    forall k: nat, p: Buf :: |p| <= MAX_FRAGMENT ==> t.enc(k, p).Some?
  }

  function Flat<T>(bs: seq<seq<T>>): seq<T> {
    if bs == [] then [] else bs[0] + Flat(bs[1..])
  }

  function OfSource(log: seq<Tagged>, q: Source): seq<Message> {
    if log == [] then []
    else (if log[0].source == q then [log[0].message] else []) + OfSource(log[1..], q)
  }

  function Arrivals(es: seq<LoopEvent>, q: Source): seq<Message> {
    if es == [] then []
    else (if es[0].Arrive? && es[0].source == q then es[0].batch else []) + Arrivals(es[1..], q)
  }

  lemma {:induction false} FragmentsFinish(t: Cipher, k: nat, channel: U8, plain: Buf, offset: nat)
    requires NeverFails(t) && offset <= |plain|
    ensures Fragments(t, k, channel, plain, offset).ok
    decreases |plain| - offset
  {
    if offset < |plain| {
      assert t.enc(k, plain[offset..FragmentEnd(|plain|, offset)]).Some?;
      FragmentsFinish(t, k + 1, channel, plain, FragmentEnd(|plain|, offset));
    }
  }

  lemma SendFinishes(t: Cipher, k: nat, m: Message)
    requires NeverFails(t)
    ensures SendOne(t, k, m).ok
  {
    hide Fragments;
    if |Plain(m)| > MAX_FRAGMENT {
      FragmentsFinish(t, k, m.channel, Plain(m), 0);
    }
  }

  lemma {:induction false} OfSourceAppend(log: seq<Tagged>, x: Tagged, q: Source)
    ensures OfSource(log + [x], q) == OfSource(log, q) + if x.source == q then [x.message] else []
    decreases |log|
  {
    if log == [] {
      assert [x][1..] == [] && log + [x] == [x];
    } else {
      OfSourceAppend(log[1..], x, q);
      assert (log + [x])[0] == log[0] && (log + [x])[1..] == log[1..] + [x];
      Associative(if log[0].source == q then [log[0].message] else [], OfSource(log[1..], q),
                  if x.source == q then [x.message] else []);
    }
  }

  lemma {:induction false} FlatAppend<T>(bs: seq<seq<T>>, b: seq<T>)
    ensures Flat(bs + [b]) == Flat(bs) + b
    decreases |bs|
  {
    if bs == [] {
      assert [b][1..] == [];
    } else {
      FlatAppend(bs[1..], b);
      assert (bs + [b])[1..] == bs[1..] + [b];
    }
  }

  lemma {:induction false} BatchLogged(t: Cipher, s: Loop, source: Source, batch: Batch, q: Source)
    requires NeverFails(t)
    ensures OfSource(SendBatch(t, s, source, batch).log, q)
            == OfSource(s.log, q) + if source == q then batch else []
    decreases |batch|
  {
    hide SendOne, OfSource, NeverFails;
    if batch != [] {
      var sent := SendOne(t, s.sealed, batch[0]);
      SendFinishes(t, s.sealed, batch[0]);
      var s' := s.(sealed := sent.next, wire := s.wire + sent.frames, log := s.log + [Tagged(source, batch[0])]);
      BatchLogged(t, s', source, batch[1..], q);
      OfSourceAppend(s.log, Tagged(source, batch[0]), q);
      assert batch == [batch[0]] + batch[1..];
    }
  }

  lemma TurnConserves(t: Cipher, s: Loop, p: Source, q: Source)
    requires NeverFails(t) && AllQueues(s)
    ensures var r := OnEvent(t, s, Turn(p));
            OfSource(r.log, q) + Flat(r.queues[q]) == OfSource(s.log, q) + Flat(s.queues[q])
  {
    hide SendBatch, NeverFails, OfSource, Flat;
    if s.queues[p] != [] {
      var head, tail := s.queues[p][0], s.queues[p][1..];
      BatchLogged(t, s.(queues := s.queues[p := tail]), p, head, q);
      if p == q {
        assert Flat(s.queues[p]) == head + Flat(tail) by { FlatHead(s.queues[p]); }
        Associative(OfSource(s.log, q), head, Flat(tail));
      }
    }
  }

  lemma FlatHead<T>(bs: seq<seq<T>>)
    requires bs != []
    ensures Flat(bs) == bs[0] + Flat(bs[1..])
  {
  }

  lemma EventConserves(t: Cipher, s: Loop, e: LoopEvent, q: Source)
    requires NeverFails(t) && AllQueues(s)
    ensures var r := OnEvent(t, s, e);
            OfSource(r.log, q) + Flat(r.queues[q])
            == OfSource(s.log, q) + Flat(s.queues[q]) + if e.Arrive? && e.source == q then e.batch else []
  {
    hide SendBatch, NeverFails, OfSource, Flat;
    match e {
      case Arrive(p, batch) =>
        FlatAppend(s.queues[q], batch);
        Associative(OfSource(s.log, q), Flat(s.queues[q]), batch);
      case Turn(p) =>
        TurnConserves(t, s, p, q);
    }
  }

  lemma {:induction false} RunConserves(t: Cipher, s: Loop, es: seq<LoopEvent>, q: Source)
    requires NeverFails(t) && AllQueues(s)
    ensures var r := RunLoop(t, s, es);
            OfSource(r.log, q) + Flat(r.queues[q]) == OfSource(s.log, q) + Flat(s.queues[q]) + Arrivals(es, q)
    decreases |es|
  {
    hide OnEvent, NeverFails, OfSource, Flat;
    if es != [] {
      EventConserves(t, s, es[0], q);
      RunConserves(t, OnEvent(t, s, es[0]), es[1..], q);
    }
  }

  /**
   * With encryption that works, every queue's messages come out in its own order: those sent
   * and those still waiting are, together, those that arrived.
   */
  lemma QueueOrderKept(t: Cipher, es: seq<LoopEvent>, q: Source)
    requires NeverFails(t)
    ensures var r := RunLoop(t, Idle(), es);
            OfSource(r.log, q) + Flat(r.queues[q]) == Arrivals(es, q)
  {
    hide RunLoop, NeverFails;
    RunConserves(t, Idle(), es, q);
  }

  // ---- the wire is whole messages, one after the other ------------------------------------------------------

  // One group of frames for each message of the log, in its order.
  predicate GroupedAs(wire: seq<Frame>, log: seq<Tagged>, groups: seq<seq<Frame>>) {
    && |groups| == |log| && wire == Flat(groups)
    && forall k :: 0 <= k < |log| ==> WholeGroup(groups[k], log[k].message)
  }

  lemma SendAddsGroup(t: Cipher, s: Loop, source: Source, m: Message, groups: seq<seq<Frame>>)
    requires Lockstep(t) && NeverFails(t) && GroupedAs(s.wire, s.log, groups)
    ensures var sent := SendOne(t, s.sealed, m);
            sent.ok && GroupedAs(s.wire + sent.frames, s.log + [Tagged(source, m)], groups + [sent.frames])
  {
    hide Flat, WholeGroup, SendOne, Lockstep, NeverFails;
    SendFinishes(t, s.sealed, m);
    SentGroup(t, s.sealed, m);
    FlatAppend(groups, SendOne(t, s.sealed, m).frames);
  }

  lemma {:induction false} BatchAddsGroups(t: Cipher, s: Loop, source: Source, batch: Batch, groups: seq<seq<Frame>>)
    returns (all: seq<seq<Frame>>)
    requires Lockstep(t) && NeverFails(t) && GroupedAs(s.wire, s.log, groups)
    ensures var r := SendBatch(t, s, source, batch); GroupedAs(r.wire, r.log, all)
    decreases |batch|
  {
    hide GroupedAs, SendOne, Lockstep, NeverFails;
    all := groups;
    if batch != [] {
      var sent := SendOne(t, s.sealed, batch[0]);
      SendAddsGroup(t, s, source, batch[0], groups);
      all := BatchAddsGroups(t, s.(sealed := sent.next, wire := s.wire + sent.frames, log := s.log + [Tagged(source, batch[0])]),
                             source, batch[1..], groups + [sent.frames]);
    }
  }

  lemma {:induction false} RunAddsGroups(t: Cipher, s: Loop, es: seq<LoopEvent>, groups: seq<seq<Frame>>)
    returns (all: seq<seq<Frame>>)
    requires Lockstep(t) && NeverFails(t) && AllQueues(s) && GroupedAs(s.wire, s.log, groups)
    ensures var r := RunLoop(t, s, es); GroupedAs(r.wire, r.log, all)
    decreases |es|
  {
    hide GroupedAs, SendBatch, Lockstep, NeverFails;
    all := groups;
    if es != [] {
      if es[0].Turn? && s.queues[es[0].source] != [] {
        var q := es[0].source;
        all := BatchAddsGroups(t, s.(queues := s.queues[q := s.queues[q][1..]]), q, s.queues[q][0], groups);
      }
      all := RunAddsGroups(t, OnEvent(t, s, es[0]), es[1..], all);
    }
  }

  /**
   * With encryption that works the whole wire, whatever the interleaving, is one Bulk frame or
   * one First Middle* Last group for each message sent, in the order sent.
   */
  lemma WireIsWholeMessages(t: Cipher, es: seq<LoopEvent>) returns (groups: seq<seq<Frame>>)
    requires Lockstep(t) && NeverFails(t)
    ensures var r := RunLoop(t, Idle(), es); GroupedAs(r.wire, r.log, groups)
  {
    hide RunLoop, Lockstep, NeverFails;
    groups := RunAddsGroups(t, Idle(), es, []);
  }

  // ---- down to the bytes -------------------------------------------------------------------------------------

  lemma {:induction false} BatchWellFormed(t: Cipher, s: Loop, source: Source, batch: Batch)
    requires Lockstep(t) && AllWellFormed(s.wire)
    ensures AllWellFormed(SendBatch(t, s, source, batch).wire)
    decreases |batch|
  {
    hide SendOne, Lockstep, WellFormed;
    if batch != [] {
      var sent := SendOne(t, s.sealed, batch[0]);
      SentFrames(t, s.sealed, batch[0]);
      var s' := s.(sealed := sent.next, wire := s.wire + sent.frames);
      if sent.ok {
        BatchWellFormed(t, s'.(log := s.log + [Tagged(source, batch[0])]), source, batch[1..]);
      }
    }
  }

  lemma {:induction false} RunWellFormed(t: Cipher, s: Loop, es: seq<LoopEvent>)
    requires Lockstep(t) && AllQueues(s) && AllWellFormed(s.wire)
    ensures AllWellFormed(RunLoop(t, s, es).wire)
    decreases |es|
  {
    hide SendBatch, Lockstep, AllWellFormed;
    if es != [] {
      if es[0].Turn? && s.queues[es[0].source] != [] {
        var q := es[0].source;
        BatchWellFormed(t, s.(queues := s.queues[q := s.queues[q][1..]]), q, s.queues[q][0]);
      }
      RunWellFormed(t, OnEvent(t, s, es[0]), es[1..]);
    }
  }

  /**
   * End to end: however the bytes of the wire are cut into reads, incremental parsing and
   * reassembly give back the messages sent.
   */
  lemma BytesCarryLog(t: Cipher, es: seq<LoopEvent>, chunks: seq<Buf>)
    requires Lockstep(t) && Concat(chunks) == EncodeAll(RunLoop(t, Idle(), es).wire)
    ensures Messages(t, 0, None, Fed([], chunks).frames) == Ok(Untagged(RunLoop(t, Idle(), es).log))
  {
    hide RunLoop, Lockstep, EncodeAll, Fed, ParseAll, Messages;
    var s := RunLoop(t, Idle(), es);
    RunWellFormed(t, Idle(), es);
    ParseAllEncoded(s.wire, []);
    ChunksDoNotMatter([], chunks);
    assert EncodeAll(s.wire) + [] == EncodeAll(s.wire);
    assert [] + Concat(chunks) == Concat(chunks);
    WireCarriesLog(t, es);
  }

  /** The same with the one-frame reader, when no read straddles two frames. */
  lemma AlignedReadsCarryLog(t: Cipher, es: seq<LoopEvent>, groups: seq<seq<Delivery>>, later: seq<Delivery>)
    requires Lockstep(t)
    requires var wire := RunLoop(t, Idle(), es).wire;
             |groups| == |wire| && forall k :: 0 <= k < |wire| ==> Carries(groups[k], wire[k])
    ensures var wire := RunLoop(t, Idle(), es).wire;
            var r := ReadMany(Flatten(groups) + later, |wire|);
            && r.result.Ok? && r.left == later
            && Messages(t, 0, None, r.result.value) == Ok(Untagged(RunLoop(t, Idle(), es).log))
  {
    hide RunLoop, Lockstep, Carries, ReadMany, Messages;
    AlignedStream(RunLoop(t, Idle(), es).wire, groups, later);
    WireCarriesLog(t, es);
  }
}
