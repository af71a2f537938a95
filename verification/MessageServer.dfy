/** The message server: every connection is read byte by byte into one buffer that is
    reused and grows, then printed as a C string. */
module MessageServer {

  type Byte = b: int | 0 <= b < 256

  const NUL: Byte := 0
  const BUF_LEN: nat := 1024
  const CONNECT_RETRY: nat := 5

  /** "quit" */
  const QUIT: seq<Byte> := [113, 117, 105, 116]

  // ----- C strings in a buffer -----

  datatype CString = Text(chars: seq<Byte>) | RunsOff

  /** What %s prints: the bytes before the first NUL; without one it leaves the buffer. */
  function StringIn(buf: seq<Byte>): CString {
    if buf == [] then RunsOff
    else if buf[0] == NUL then Text([])
    else match StringIn(buf[1..])
      case Text(chars) => Text([buf[0]] + chars)
      case RunsOff => RunsOff
  }

  /** strncmp(a, b, n) == 0, reading as many bytes as strncmp does. */
  predicate SameStart(a: seq<Byte>, b: seq<Byte>, n: nat)
    requires n <= |a| && n <= |b|
  {
    n == 0 || (a[0] == b[0] && (a[0] == NUL || SameStart(a[1..], b[1..], n - 1)))
  }

  /** The bytes printed are the ones before the first NUL of the message, whatever stale
      bytes follow the message in the buffer. */
  lemma {:induction false} StaleBytesInvisible(msg: seq<Byte>, stale: seq<Byte>)
    requires NUL in msg
    ensures StringIn(msg + stale) == StringIn(msg)
    ensures StringIn(msg).Text? && NUL !in StringIn(msg).chars && StringIn(msg).chars + [NUL] <= msg
  {
    if msg[0] != NUL {
      assert msg == [msg[0]] + msg[1..];
      assert (msg + stale)[1..] == msg[1..] + stale;
      StaleBytesInvisible(msg[1..], stale);
    }
  }

  /** Without a NUL in the message the stale bytes are printed behind it. */
  lemma {:induction false} StaleBytesPrinted(msg: seq<Byte>, stale: seq<Byte>)
    requires NUL !in msg
    ensures StringIn(msg + stale) == match StringIn(stale) {
        case Text(chars) => Text(msg + chars)
        case RunsOff => RunsOff
      }
  {
    if msg == [] {
      assert msg + stale == stale;
      match StringIn(stale) {
        case Text(chars) => assert msg + chars == chars;
        case RunsOff =>
      }
    } else {
      assert (msg + stale)[1..] == msg[1..] + stale;
      StaleBytesPrinted(msg[1..], stale);
      match StringIn(stale) {
        case Text(chars) => assert msg + chars == [msg[0]] + (msg[1..] + chars);
        case RunsOff =>
      }
    }
  }

  /** So a message without a NUL is printed correctly exactly when a NUL happens to follow
      it in the buffer. */
  lemma UnterminatedPrintedIff(msg: seq<Byte>, stale: seq<Byte>)
    requires NUL !in msg
    ensures StringIn(msg + stale) == Text(msg) <==> stale != [] && stale[0] == NUL
  {
    StaleBytesPrinted(msg, stale);
    if StringIn(stale).Text? {
      assert |msg + StringIn(stale).chars| == |msg| + |StringIn(stale).chars|;
      assert msg + [] == msg;
    }
  }

  /** The bytes up to the first NUL, and that NUL. */
  function UpToNul(s: seq<Byte>): seq<Byte> {
    if s == [] then [] else if s[0] == NUL then [NUL] else [s[0]] + UpToNul(s[1..])
  }

  /** strncmp compares two strings up to their first NUL, and at most n bytes. */
  lemma {:induction false} SameStartIffUpToNul(a: seq<Byte>, b: seq<Byte>, n: nat)
    requires n <= |a| && n <= |b|
    ensures SameStart(a, b, n) <==> UpToNul(a[..n]) == UpToNul(b[..n])
  {
    if n > 0 {
      assert a[..n][1..] == a[1..][..n - 1] && b[..n][1..] == b[1..][..n - 1];
      SameStartIffUpToNul(a[1..], b[1..], n - 1);
      assert UpToNul(a[..n])[0] == a[0] && UpToNul(b[..n])[0] == b[0];
      assert a[0] != NUL ==> UpToNul(a[..n])[1..] == UpToNul(a[1..][..n - 1]);
      assert b[0] != NUL ==> UpToNul(b[..n])[1..] == UpToNul(b[1..][..n - 1]);
    }
  }

  lemma {:induction false} SameStartIff(a: seq<Byte>, b: seq<Byte>, n: nat)
    requires n <= |a| && n <= |b| && NUL !in a[..n]
    ensures SameStart(a, b, n) <==> a[..n] == b[..n]
  {
    if n > 0 {
      assert a[..n] == [a[0]] + a[1..][..n - 1];
      assert b[..n] == [b[0]] + b[1..][..n - 1];
      assert a[0] in a[..n];
      SameStartIff(a[1..], b[1..], n - 1);
    }
  }

  /** The test at line 108, on the buffer. */
  predicate IsQuit(buf: seq<Byte>)
    requires |buf| >= 4
  {
    SameStart(QUIT, buf, 4)
  }

  /** It recognises a message with a NUL exactly when the message starts with "quit". One
      without is also recognised when stale bytes complete it. */
  lemma QuitRecognisedIff(msg: seq<Byte>, stale: seq<Byte>)
    requires |msg + stale| >= 4
    ensures IsQuit(msg + stale) <==> QUIT <= msg + stale
    ensures NUL in msg ==> (IsQuit(msg + stale) <==> QUIT <= msg)
    ensures NUL !in msg ==>
      (IsQuit(msg + stale) <==> QUIT <= msg || (msg < QUIT && QUIT[|msg|..] <= stale))
  {
    var buf := msg + stale;
    assert QUIT[..4] == QUIT;
    SameStartIff(QUIT, buf, 4);
    if |msg| < 4 && QUIT <= buf {
      assert forall i :: 0 <= i < |msg| ==> msg[i] == buf[i] == QUIT[i];
      assert NUL !in msg;
      assert msg < QUIT;
      assert forall i :: 0 <= i < 4 - |msg| ==> stale[i] == buf[|msg| + i] == QUIT[|msg|..][i];
    }
    if |msg| < 4 && msg < QUIT && QUIT[|msg|..] <= stale {
      assert forall i :: 0 <= i < 4 ==> buf[i] == QUIT[i];
    }
    if |msg| >= 4 {
      assert buf[..4] == msg[..4];
    }
  }

  /** The client sends its text, a NUL, and one byte more. */
  function ClientFrame(text: seq<Byte>, extra: Byte): seq<Byte> {
    text + [NUL] + [extra]
  }

  lemma ClientRoundTrip(text: seq<Byte>, extra: Byte, stale: seq<Byte>)
    requires NUL !in text
    ensures StringIn(ClientFrame(text, extra) + stale) == Text(text)
  {
    var rest := [NUL] + ([extra] + stale);
    assert ClientFrame(text, extra) + stale == text + rest;
    UnterminatedPrintedIff(text, rest);
  }

  // ----- Text -----

  predicate IsAscii(text: string) {
    forall i :: 0 <= i < |text| ==> 0 < text[i] as int < 128
  }

  function Ascii(text: string): (r: seq<Byte>)
    requires IsAscii(text)
    ensures |r| == |text| && NUL !in r
  {
    seq(|text|, i requires 0 <= i < |text| => text[i] as int)
  }

  lemma QuitIsText(text: string)
    requires IsAscii(text)
    ensures QUIT <= Ascii(text) <==> "quit" <= text
  {
    var quit := "quit";
    assert quit[0] as int == 113 && quit[1] as int == 117 && quit[2] as int == 105 && quit[3] as int == 116;
    if QUIT <= Ascii(text) {
      forall i | 0 <= i < 4
        ensures text[i] == quit[i]
      {
        assert text[i] as int == Ascii(text)[i] == QUIT[i] == quit[i] as int;
      }
    }
  }

  // ----- The server's promise -----

  /** The buffer length after a message: it grows as soon as it is full. */
  function Grown(len: nat, size: nat): (r: nat)
    ensures r > size && r >= len && (r == len || r - BUF_LEN <= size)
    decreases if size < len then 0 else size - len + 1
  {
    if size < len then len else Grown(len + BUF_LEN, size)
  }

  lemma {:induction false} GrownNext(len: nat, size: nat)
    ensures var g := Grown(len, size);
      Grown(len, size + 1) == if size + 1 < g then g else g + BUF_LEN
    decreases if size < len then 0 else size - len + 1
  {
    if size >= len {
      GrownNext(len + BUF_LEN, size);
    }
  }

  /** failures counts the failed calls of accept before the connection. */
  datatype Connection = Connection(failures: nat, bytes: seq<Byte>)

  datatype Outcome = Quit | AcceptFailed | OutOfMemory | Waiting

  /** What the server prints and how it ends, without any buffer. limit is the size of the
      largest buffer realloc can provide. */
  function Expected(conns: seq<Connection>, len: nat, limit: nat): (seq<CString>, Outcome) {
    if conns == [] then ([], Waiting)
    else if conns[0].failures >= CONNECT_RETRY then ([], AcceptFailed)
    else
      var msg := conns[0].bytes;
      var len' := Grown(len, |msg|);
      if len' > len && len' > limit then ([], OutOfMemory)
      else if QUIT <= msg then ([StringIn(msg)], Quit)
      else
        After([StringIn(msg)], Expected(conns[1..], len', limit))
  }

  predicate Terminated(conns: seq<Connection>) {
    forall i :: 0 <= i < |conns| ==> NUL in conns[i].bytes
  }

  lemma FrameStartsWith(text: seq<Byte>, extra: Byte)
    requires NUL !in text
    ensures QUIT <= ClientFrame(text, extra) <==> QUIT <= text
  {
    var frame := ClientFrame(text, extra);
    assert frame == text + ([NUL] + [extra]);
    if |text| < 4 {
      assert frame[|text|] == NUL;
    }
  }

  /** A client that sends a text ends the server exactly if the text starts with "quit"; in
      any case the server prints the text. Five failed calls of accept end it before. */
  lemma OneClient(text: string, extra: Byte, failures: nat, limit: nat)
    requires IsAscii(text) && |text| + 2 + 1024 <= limit
    ensures Expected([Connection(failures, ClientFrame(Ascii(text), extra))], 1024, limit) ==
      if failures >= 5 then ([], AcceptFailed)
      else ([Text(Ascii(text))], if "quit" <= text then Quit else Waiting)
  {
    var frame := ClientFrame(Ascii(text), extra);
    var conns := [Connection(failures, frame)];
    assert conns[1..] == [] && [StringIn(frame)] + [] == [StringIn(frame)];
    QuitIsText(text);
    FrameStartsWith(Ascii(text), extra);
    ClientRoundTrip(Ascii(text), extra, []);
    assert frame + [] == frame;
  }

  /** The buffer is always the smallest multiple of 1024 that leaves room for one more byte
      than the longest message so far. */
  lemma {:induction false} GrownIsMultiple(k: nat, size: nat)
    requires k > 0
    ensures Grown(1024 * k, size) == if size < 1024 * k then 1024 * k else 1024 * (size / 1024 + 1)
    decreases if size < 1024 * k then 0 else size - 1024 * k + 1
  {
    if size >= 1024 * k {
      GrownIsMultiple(k + 1, size);
    }
  }

  // ----- What the server does with any messages -----

  /** What malloc and realloc leave in each place of the buffer. The buffer never shrinks,
      so no place is allocated twice. */
  type Junk = nat -> Byte

  function JunkFrom(junk: Junk, place: nat, count: nat): (r: seq<Byte>)
    ensures |r| == count
  {
    seq(count, k requires 0 <= k => junk(place + k))
  }

  /** The byte a place holds or, behind the buffer, will hold when it is allocated. */
  function InPlace(buf: seq<Byte>, junk: Junk, place: nat): Byte {
    if place < |buf| then buf[place] else junk(place)
  }

  /** The bytes of the buffer behind a message of the given size. */
  function Behind(buf: seq<Byte>, size: nat, junk: Junk): (r: seq<Byte>)
    ensures |r| == Grown(|buf|, size) - size && r[0] == InPlace(buf, junk, size)
  {
    if size < |buf| then buf[size..] else JunkFrom(junk, size, Grown(|buf|, size) - size)
  }

  /** The contents of the buffer once it has received a message. */
  function NextBuffer(buf: seq<Byte>, msg: seq<Byte>, junk: Junk): (r: seq<Byte>)
    ensures |r| == Grown(|buf|, |msg|)
  {
    msg + Behind(buf, |msg|, junk)
  }

  /** What one connection prints; the outcome is Waiting if the server goes on. */
  function OneConnection(c: Connection, buf: seq<Byte>, junk: Junk, limit: nat): (seq<CString>, Outcome) {
    var buf' := NextBuffer(buf, c.bytes, junk);
    if c.failures >= CONNECT_RETRY then ([], AcceptFailed)
    else if |buf'| > |buf| && |buf'| > limit then ([], OutOfMemory)
    else ([StringIn(buf')], if QUIT <= buf' then Quit else Waiting)
  }

  /** What the server prints and how it ends, from a buffer with the contents buf. */
  function Actual(conns: seq<Connection>, buf: seq<Byte>, junk: Junk, limit: nat): (seq<CString>, Outcome) {
    if conns == [] then ([], Waiting)
    else
      var one := OneConnection(conns[0], buf, junk, limit);
      if one.1 != Waiting then one
      else After(one.0, Actual(conns[1..], NextBuffer(buf, conns[0].bytes, junk), junk, limit))
  }

  /** If every message carries its NUL, output and outcome depend on the messages alone. */
  lemma {:induction false} TerminatedPrintsExpected(conns: seq<Connection>, buf: seq<Byte>, junk: Junk, limit: nat)
    requires Terminated(conns) && |buf| >= BUF_LEN
    ensures Actual(conns, buf, junk, limit) == Expected(conns, |buf|, limit)
    decreases |conns|
  {
    if conns == [] {
    } else {
      var msg := conns[0].bytes;
      StaleBytesInvisible(msg, Behind(buf, |msg|, junk));
      QuitRecognisedIff(msg, Behind(buf, |msg|, junk));
      TerminatedPrintsExpected(conns[1..], NextBuffer(buf, msg, junk), junk, limit);
    }
  }

  function BufferAfter(conns: seq<Connection>, buf: seq<Byte>, junk: Junk): seq<Byte> {
    if conns == [] then buf else BufferAfter(conns[1..], NextBuffer(buf, conns[0].bytes, junk), junk)
  }

  /** The byte that the last message long enough to reach a place left there. */
  function LastWritten(conns: seq<Connection>, place: nat, initial: Byte): Byte {
    if conns == [] then initial
    else LastWritten(conns[1..], place, if place < |conns[0].bytes| then conns[0].bytes[place] else initial)
  }

  lemma NextInPlace(buf: seq<Byte>, msg: seq<Byte>, junk: Junk, place: nat)
    ensures InPlace(NextBuffer(buf, msg, junk), junk, place) ==
      if place < |msg| then msg[place] else InPlace(buf, junk, place)
  {
    if |msg| <= place < |NextBuffer(buf, msg, junk)| {
      assert NextBuffer(buf, msg, junk)[place] == Behind(buf, |msg|, junk)[place - |msg|];
    }
  }

  /** However often the buffer has grown. */
  lemma {:induction false} HoldsLastWritten(conns: seq<Connection>, buf: seq<Byte>, junk: Junk, place: nat)
    ensures InPlace(BufferAfter(conns, buf, junk), junk, place) == LastWritten(conns, place, InPlace(buf, junk, place))
    decreases |conns|
  {
    if conns == [] {
    } else {
      NextInPlace(buf, conns[0].bytes, junk, place);
      HoldsLastWritten(conns[1..], NextBuffer(buf, conns[0].bytes, junk), junk, place);
    }
  }

  lemma {:induction false} PrintsFromBuffer(conns: seq<Connection>, buf: seq<Byte>, junk: Junk, limit: nat, i: nat)
    requires i < |Actual(conns, buf, junk, limit).0|
    ensures i < |conns|
    ensures Actual(conns, buf, junk, limit).0[i] ==
      StringIn(NextBuffer(BufferAfter(conns[..i], buf, junk), conns[i].bytes, junk))
    decreases |conns|
  {
    if i > 0 {
      PrintsFromBuffer(conns[1..], NextBuffer(buf, conns[0].bytes, junk), junk, limit, i - 1);
      assert conns[..i][1..] == conns[1..][..i - 1];
    }
  }

  lemma PrintedIff(buf: seq<Byte>, msg: seq<Byte>, junk: Junk)
    ensures NUL in msg ==> StringIn(NextBuffer(buf, msg, junk)) == StringIn(msg)
    ensures NUL !in msg ==> (StringIn(NextBuffer(buf, msg, junk)) == Text(msg) <==> InPlace(buf, junk, |msg|) == NUL)
  {
    if NUL in msg {
      StaleBytesInvisible(msg, Behind(buf, |msg|, junk));
    } else {
      UnterminatedPrintedIff(msg, Behind(buf, |msg|, junk));
    }
  }

  /** The i-th printed text is that of the i-th message if the message carries a NUL. If
      not, it is the message exactly when the last earlier message that was longer had a
      NUL in the place behind it, or no message was longer and the memory had one there. */
  lemma EachPrintedIff(conns: seq<Connection>, buf: seq<Byte>, junk: Junk, limit: nat, i: nat)
    requires i < |Actual(conns, buf, junk, limit).0|
    ensures i < |conns|
    ensures var printed, msg := Actual(conns, buf, junk, limit).0[i], conns[i].bytes;
      if NUL in msg then printed == StringIn(msg)
      else printed == Text(msg) <==> LastWritten(conns[..i], |msg|, InPlace(buf, junk, |msg|)) == NUL
  {
    PrintsFromBuffer(conns, buf, junk, limit, i);
    PrintedIff(BufferAfter(conns[..i], buf, junk), conns[i].bytes, junk);
    HoldsLastWritten(conns[..i], buf, junk, |conns[i].bytes|);
  }

  /** With connections and memory available, the loop stops exactly at the first message
      that starts with "quit", having printed every message up to it. */
  lemma {:induction false} StopsAtFirstQuit(conns: seq<Connection>, len: nat, limit: nat, q: nat)
    requires forall i :: 0 <= i < |conns| ==> conns[i].failures < CONNECT_RETRY
    requires forall i :: 0 <= i < |conns| ==> |conns[i].bytes| + BUF_LEN <= limit
    requires q <= |conns| && forall i :: 0 <= i < q ==> !(QUIT <= conns[i].bytes)
    requires q < |conns| ==> QUIT <= conns[q].bytes
    ensures var (printed, outcome) := Expected(conns, len, limit);
      && |printed| == (if q < |conns| then q + 1 else q)
      && outcome == (if q < |conns| then Quit else Waiting)
      && forall i :: 0 <= i < |printed| ==> printed[i] == StringIn(conns[i].bytes)
    decreases |conns|
  {
    if conns != [] && q > 0 {
      StopsAtFirstQuit(conns[1..], Grown(len, |conns[0].bytes|), limit, q - 1);
    }
  }

  // ----- The code -----

  class Server {
    var pcBuf: array<Byte>
    const junk: Junk

    ghost predicate Valid()
      reads this
    {
      pcBuf.Length >= BUF_LEN
    }

    constructor (junk: Junk)
      ensures Valid() && fresh(pcBuf) && this.junk == junk
      ensures pcBuf[..] == JunkFrom(junk, 0, BUF_LEN)
    {
      this.junk := junk;
      pcBuf := new Byte[BUF_LEN](k requires 0 <= k => junk(k));
    }

    /** realloc: the old bytes are kept, the new ones are what the memory held. */
    method Grow()
      requires Valid()
      modifies this
      ensures Valid() && fresh(pcBuf)
      ensures pcBuf[..] == old(pcBuf[..]) + JunkFrom(junk, old(pcBuf.Length), BUF_LEN)
    {
      var small := pcBuf;
      var grown := new Byte[small.Length + BUF_LEN](k requires 0 <= k => junk(k));
      var i := 0;
      while i < small.Length
        invariant i <= small.Length
        invariant small[..] == old(pcBuf[..])
        invariant grown[..i] == small[..i]
        invariant forall k :: small.Length <= k < grown.Length ==> grown[k] == junk(k)
      {
        grown[i] := small[i];
        i := i + 1;
      }
      pcBuf := grown;
      assert grown[..] == grown[..i] + grown[i..];
      assert grown[i..] == JunkFrom(junk, i, BUF_LEN);
    }

    /** The body of the read loop: the byte that arrived goes to its place, and a full
        buffer grows. */
    method PutByte(place: nat, byte: Byte, limit: nat) returns (ok: bool)
      requires Valid() && place < pcBuf.Length
      modifies this, pcBuf
      ensures Valid() && (pcBuf == old(pcBuf) || fresh(pcBuf))
      ensures ok <==> place + 1 < old(pcBuf.Length) || old(pcBuf.Length) + BUF_LEN <= limit
      ensures ok ==> pcBuf[..] == WithByte(old(pcBuf[..]), place, byte, junk)
    {
      pcBuf[place] := byte;
      var s32idx := place + 1;
      assert pcBuf[..] == old(pcBuf[..])[place := byte];
      if s32idx >= pcBuf.Length {
        if pcBuf.Length + BUF_LEN > limit {
          return false;
        }
        Grow();
      }
      ok := true;
    }

    /** The read loop. Every write is inside the buffer; the bytes behind the message are
        the ones that were there before. */
    method Receive(msg: seq<Byte>, limit: nat) returns (ok: bool)
      requires Valid()
      modifies this, pcBuf
      ensures Valid() && (pcBuf == old(pcBuf) || fresh(pcBuf))
      ensures ok <==> Grown(old(pcBuf.Length), |msg|) == old(pcBuf.Length) || Grown(old(pcBuf.Length), |msg|) <= limit
      ensures ok ==> pcBuf[..] == NextBuffer(old(pcBuf[..]), msg, junk)
    {
      var s32idx := 0;
      ghost var before := pcBuf[..];
      ReceivedAll(before, msg, junk);
      while s32idx < |msg|
        invariant s32idx <= |msg|
        invariant Valid() && (pcBuf == old(pcBuf) || fresh(pcBuf))
        invariant pcBuf[..] == Received(before, msg, s32idx, junk)
        invariant pcBuf.Length == |before| || pcBuf.Length <= limit
      {
        ReceivedNext(before, msg, s32idx, junk);
        ok := PutByte(s32idx, msg[s32idx], limit);
        if !ok {
          return;
        }
        s32idx := s32idx + 1;
      }
      ok := true;
    }

    /** The body of the main loop. */
    method Handle(c: Connection, limit: nat) returns (printed: seq<CString>, outcome: Outcome)
      requires Valid()
      modifies this, pcBuf
      ensures Valid() && (pcBuf == old(pcBuf) || fresh(pcBuf))
      ensures (printed, outcome) == OneConnection(c, old(pcBuf[..]), junk, limit)
      ensures outcome.Waiting? ==> pcBuf[..] == NextBuffer(old(pcBuf[..]), c.bytes, junk)
    {
      printed := [];
      if c.failures >= CONNECT_RETRY {
        return printed, AcceptFailed;
      }
      var ok := Receive(c.bytes, limit);
      if !ok {
        return printed, OutOfMemory;
      }
      SameStartIff(QUIT, pcBuf[..], 4);
      printed := [StringIn(pcBuf[..])];
      outcome := if IsQuit(pcBuf[..]) then Quit else Waiting;
    }

    /** The main loop, over the connections that arrive. */
    method Serve(conns: seq<Connection>, limit: nat) returns (printed: seq<CString>, outcome: Outcome)
      requires Valid()
      modifies this, pcBuf
      ensures (printed, outcome) == Actual(conns, old(pcBuf[..]), junk, limit)
      ensures Terminated(conns) ==> (printed, outcome) == Expected(conns, old(pcBuf.Length), limit)
    {
      printed, outcome := [], Waiting;
      var i := 0;
      ghost var promised := Actual(conns, pcBuf[..], junk, limit);
      if Terminated(conns) { TerminatedPrintsExpected(conns, pcBuf[..], junk, limit); }
      AfterNothing(promised);
      assert conns[0..] == conns;
      while i < |conns| && outcome.Waiting?
        invariant i <= |conns|
        invariant Valid() && (pcBuf == old(pcBuf) || fresh(pcBuf))
        invariant promised ==
          if outcome.Waiting? then After(printed, Actual(conns[i..], pcBuf[..], junk, limit)) else (printed, outcome)
      {
        ActualNext(printed, conns, i, pcBuf[..], junk, limit);
        var text;
        text, outcome := Handle(conns[i], limit);
        printed := printed + text;
        i := i + 1;
      }
      assert printed + [] == printed;
    }
  }

  /** One iteration of the main loop, seen from the promise. */
  lemma ActualNext(printed: seq<CString>, conns: seq<Connection>, i: nat, buf: seq<Byte>, junk: Junk, limit: nat)
    requires i < |conns|
    ensures var one := OneConnection(conns[i], buf, junk, limit);
      After(printed, Actual(conns[i..], buf, junk, limit)) ==
        if one.1 != Waiting then (printed + one.0, one.1)
        else After(printed + one.0, Actual(conns[i + 1..], NextBuffer(buf, conns[i].bytes, junk), junk, limit))
  {
    var one := OneConnection(conns[i], buf, junk, limit);
    assert conns[i..][0] == conns[i] && conns[i..][1..] == conns[i + 1..];
    AfterAfter(printed, one.0, Actual(conns[i + 1..], NextBuffer(buf, conns[i].bytes, junk), junk, limit));
  }

  /** The buffer after one byte of the read loop. */
  function WithByte(buf: seq<Byte>, place: nat, byte: Byte, junk: Junk): seq<Byte>
    requires place < |buf|
  {
    buf[place := byte] + if place + 1 < |buf| then [] else JunkFrom(junk, |buf|, BUF_LEN)
  }

  lemma OneMoreByte(buf: seq<Byte>, msg: seq<Byte>, byte: Byte, junk: Junk)
    ensures WithByte(NextBuffer(buf, msg, junk), |msg|, byte, junk) == NextBuffer(buf, msg + [byte], junk)
  {
    GrownNext(|buf|, |msg|);
    assert WithByte(NextBuffer(buf, msg, junk), |msg|, byte, junk)[..|msg| + 1] == msg + [byte];
  }

  /** The buffer after k bytes of a message. */
  function Received(buf: seq<Byte>, msg: seq<Byte>, k: nat, junk: Junk): (r: seq<Byte>)
    requires k <= |msg|
    ensures |r| == Grown(|buf|, k)
  {
    NextBuffer(buf, msg[..k], junk)
  }

  lemma ReceivedAll(buf: seq<Byte>, msg: seq<Byte>, junk: Junk)
    ensures buf != [] ==> Received(buf, msg, 0, junk) == buf
    ensures Received(buf, msg, |msg|, junk) == NextBuffer(buf, msg, junk)
  {
    assert msg[..|msg|] == msg;
  }

  lemma {:induction false} GrownMonotone(len: nat, k: nat, size: nat)
    requires k <= size
    ensures Grown(len, k) <= Grown(len, size)
    decreases if k < len then 0 else k - len + 1
  {
    if k < len {
    } else {
      GrownMonotone(len + BUF_LEN, k, size);
    }
  }

  /** One iteration of the read loop: the buffer, and its size on the way to the last. */
  lemma ReceivedNext(buf: seq<Byte>, msg: seq<Byte>, k: nat, junk: Junk)
    requires k < |msg|
    ensures WithByte(Received(buf, msg, k, junk), k, msg[k], junk) == Received(buf, msg, k + 1, junk)
    ensures Grown(|buf|, k + 1) == if k + 1 < Grown(|buf|, k) then Grown(|buf|, k) else Grown(|buf|, k) + BUF_LEN
    ensures |buf| <= Grown(|buf|, k) && Grown(|buf|, k + 1) <= Grown(|buf|, |msg|)
  {
    OneMoreByte(buf, msg[..k], msg[k], junk);
    assert msg[..k + 1] == msg[..k] + [msg[k]];
    GrownNext(|buf|, k);
    GrownMonotone(|buf|, k + 1, |msg|);
  }

  function After(printed: seq<CString>, rest: (seq<CString>, Outcome)): (seq<CString>, Outcome) {
    (printed + rest.0, rest.1)
  }

  lemma AfterNothing(rest: (seq<CString>, Outcome))
    ensures After([], rest) == rest
  {
    assert [] + rest.0 == rest.0;
  }

  lemma AfterAfter(printed: seq<CString>, next: seq<CString>, rest: (seq<CString>, Outcome))
    ensures After(printed, After(next, rest)) == After(printed + next, rest)
  {
    assert printed + (next + rest.0) == (printed + next) + rest.0;
  }
}
