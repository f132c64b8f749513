/**
 Fabrial framing: the writer of oathgate-runner/src/pty/fabrial.rs and the reader of
 oathgate-fabrial/src/tty.rs, over a byte stream whose receives may be short.
 */
module Fabrial {
  import opened Bytes

  const DATA: u8 := 1
  const RESIZE: u8 := 2
  const BUFFER_SIZE := 2048

  datatype Message = Data(bytes: seq<u8>) | Resize(rows: u16, cols: u16)

  /** What `read_from_socket` leads to. */
  datatype Action = WriteToTty(bytes: seq<u8>) | SetSize(rows: u16, cols: u16) | Unknown(ty: u8) | WouldBlock | Failed

  //
  // The writer
  //

  /** The two low bytes of a number, little endian. */
  function Le16(n: nat): (r: seq<u8>)
    ensures |r| == 2
  {
    [n % 0x100, n / 0x100 % 0x100]
  }

  function FromLe16(b0: u8, b1: u8): (r: u16)
  {
    b0 + b1 as int * 0x100
  }

  function Encode(m: Message): (r: seq<u8>)
  {
    match m
    case Data(bytes) => [DATA] + Le16(|bytes|) + bytes
    case Resize(rows, cols) => [RESIZE] + Le16(rows) + Le16(cols)
  }

  function EncodeAll(ms: seq<Message>): (r: seq<u8>)
  {
    if ms == [] then [] else Encode(ms[0]) + EncodeAll(ms[1..])
  }

  /** The messages that survive: non-empty data that fits the length field, non-zero sizes. */
  predicate Sendable(m: Message)
  {
    match m
    case Data(bytes) => 1 <= |bytes| <= 0xFFFF
    case Resize(rows, cols) => rows > 0 && cols > 0
  }

  /** The terminal's end of the socket: what has been sent so far. */
  class FabrialPty {
    var sent: seq<u8>

    constructor ()
      ensures sent == []
    {
      sent := [];
    }

    method WritePty(data: seq<u8>)
      modifies this
      ensures sent == old(sent) + Encode(Data(data))
    {
      var len := Le16(|data|);
      var hdr := [DATA, len[0], len[1]];
      sent := sent + hdr;
      sent := sent + data;
      assert sent == old(sent) + Encode(Data(data));
    }

    method ResizePty(rows: u16, cols: u16)
      modifies this
      ensures sent == old(sent) + Encode(Resize(rows, cols))
    {
      var r, c := Le16(rows), Le16(cols);
      sent := sent + [RESIZE, r[0], r[1], c[0], c[1]];
      assert [RESIZE, r[0], r[1], c[0], c[1]] == Encode(Resize(rows, cols));
    }
  }

  //
  // The reader
  //

  /** The part of a stream the first receives take, and the rest. */
  function Take(stream: seq<u8>, n: nat): (r: seq<u8>)
  {
    if n <= |stream| then stream[..n] else stream
  }

  function Skip(stream: seq<u8>, n: nat): (r: seq<u8>)
  {
    if n <= |stream| then stream[n..] else []
  }

  /** A fixed-size read into a zeroed buffer: missing bytes stay zero. */
  function Padded(stream: seq<u8>, n: nat): (r: seq<u8>)
    ensures |r| == n
  {
    Take(stream, n) + Zeros(n - |Take(stream, n)|)
  }

  /** A data message after its type, when the receive of its length gets `seen` bytes. */
  function ReadData(stream: seq<u8>, seen: nat): (r: (Action, seq<u8>))
  {
    var len := Padded(Take(stream, seen), 2);
    var n := FromLe16(len[0], len[1]);
    var body := Skip(stream, seen);
    if n == 0 then (Failed, body) else (WriteToTty(Take(body, n)), Skip(body, n))
  }

  /** One call of `read_from_socket`: what it leads to, and the stream after it. */
  function Read(stream: seq<u8>): (r: (Action, seq<u8>))
  {
    var ty := Padded(stream, 1)[0];
    var rest := Skip(stream, 1);
    if ty == 0 then (WouldBlock, rest)
    else if ty == DATA then
      ReadData(rest, 2)
    else if ty == RESIZE then
      var b := Padded(rest, 4);
      var rows, cols := FromLe16(b[0], b[1]), FromLe16(b[2], b[3]);
      (if rows == 0 || cols == 0 then Failed else SetSize(rows, cols), Skip(rest, 4))
    else (Unknown(ty), rest)
  }

  /** The server's end of the socket: the bytes that have arrived; `grants` bounds the receives of bodies, in order. */
  class SockTty {
    var stream: seq<u8>
    var grants: seq<nat>

    constructor (stream: seq<u8>, grants: seq<nat>)
      ensures this.stream == stream && this.grants == grants
    {
      this.stream, this.grants := stream, grants;
    }

    /** A receive that is not cut short: everything there is, up to `n` bytes. */
    method ReceiveAll(n: nat) returns (buf: seq<u8>)
      modifies this`stream
      ensures buf == Take(old(stream), n) && stream == Skip(old(stream), n)
    {
      buf := Take(stream, n);
      stream := Skip(stream, n);
    }

    /** A receive of at least one byte, if there is any, and at most `n`; 0 when it would block. */
    method Receive(n: nat) returns (buf: seq<u8>)
      modifies this
      ensures |buf| <= n && old(stream) == buf + stream
      ensures n > 0 && old(stream) != [] ==> |buf| > 0
    {
      var grant := 1;
      if grants != [] {
        grant := if grants[0] == 0 then 1 else grants[0];
        grants := grants[1..];
      }
      var sz := if grant < n then grant else n;
      buf := Take(stream, sz);
      stream := Skip(stream, sz);
    }

    /** `read_from_socket`, whatever the receives of the body deliver. */
    method ReadFromSocket() returns (action: Action)
      modifies this
      ensures (action, stream) == Read(old(stream))
    {
      var first := ReceiveAll(1);
      var ty := if first == [] then 0 else first[0];
      if ty == 0 {
        action := WouldBlock;
      } else if ty == DATA {
        action := HandleSocketData(2);
      } else if ty == RESIZE {
        action := HandleTtyResize();
      } else {
        action := Unknown(ty);
      }
    }

    /** `handle_socket_data`; the receive of the two bytes of length gets at most `seen` of them. */
    method HandleSocketData(seen: nat) returns (action: Action)
      requires seen <= 2
      modifies this
      ensures (action, stream) == ReadData(old(stream), seen)
    {
      var got := ReceiveAll(seen);
      var hdr := got + Zeros(2 - |got|);
      var length: nat := FromLe16(hdr[0], hdr[1]);
      if length == 0 {
        return Failed;
      }
      ghost var body, total := stream, length;
      var msg: seq<u8> := [];
      while true
        invariant body == msg + stream && total == |msg| + length
        decreases length
      {
        var sz := if length < BUFFER_SIZE then length else BUFFER_SIZE;
        if sz == 0 {
          break;
        }
        var buf := Receive(sz);
        if buf == [] {
          break;
        }
        msg := msg + buf;
        length := length - |buf|;
      }
      assert msg == Take(body, total) && stream == Skip(body, total);
      action := WriteToTty(msg);
    }

    method HandleTtyResize() returns (action: Action)
      modifies this
      ensures var b := Padded(old(stream), 4);
              var rows, cols := FromLe16(b[0], b[1]), FromLe16(b[2], b[3]);
              && action == (if rows == 0 || cols == 0 then Failed else SetSize(rows, cols))
              && stream == Skip(old(stream), 4)
    {
      var got := ReceiveAll(4);
      var buf := got + Zeros(4 - |got|);
      var rows, cols := FromLe16(buf[0], buf[1]), FromLe16(buf[2], buf[3]);
      action := if rows == 0 || cols == 0 then Failed else SetSize(rows, cols);
    }

    /** The loop of `run` for a readable socket: everything is read until a wait or an error. */
    method HandleReadable() returns (actions: seq<Action>)
      modifies this
      ensures actions == ReadAll(old(stream)) && stream == Left(old(stream))
    {
      actions := [];
      while true
        invariant ReadAll(old(stream)) == actions + ReadAll(stream) && Left(old(stream)) == Left(stream)
        decreases |stream|
      {
        ReadOnce(stream);
        var action := ReadFromSocket();
        actions := actions + [action];
        if action == WouldBlock || action == Failed {
          return;
        }
      }
    }
  }

  /** The actions of the loop in `run` up to the first that is not a message. */
  function ReadAll(stream: seq<u8>): (r: seq<Action>)
    decreases |stream|
  {
    var (action, rest) := Read(stream);
    if stream == [] || action == WouldBlock || action == Failed then [action]
    else [action] + ReadAll(rest)
  }

  /** What is left unread when the loop in `run` goes back to waiting. */
  function Left(stream: seq<u8>): (r: seq<u8>)
    decreases |stream|
  {
    var (action, rest) := Read(stream);
    if stream == [] || action == WouldBlock || action == Failed then rest else Left(rest)
  }

  /** One turn of that loop. */
  lemma ReadOnce(stream: seq<u8>)
    ensures var (action, rest) := Read(stream);
            if action == WouldBlock || action == Failed then ReadAll(stream) == [action] && Left(stream) == rest
            else |rest| < |stream| && ReadAll(stream) == [action] + ReadAll(rest) && Left(stream) == Left(rest)
  {
    ReadShrinks(stream);
    hide Read;
  }

  lemma ReadShrinks(stream: seq<u8>)
    ensures stream == [] ==> Read(stream) == (WouldBlock, [])
    ensures stream != [] ==> |Read(stream).1| < |stream|
  {
  }

  function Effect(m: Message): (r: Action)
  {
    match m case Data(bytes) => WriteToTty(bytes) case Resize(rows, cols) => SetSize(rows, cols)
  }

  function Effects(ms: seq<Message>): (r: seq<Action>)
  {
    if ms == [] then [WouldBlock] else [Effect(ms[0])] + Effects(ms[1..])
  }

  //
  // Round trip
  //

  lemma LeValue(n: nat)
    ensures FromLe16(Le16(n)[0], Le16(n)[1]) == n % 0x1_0000
  {
  }

  /** A type, 1 for data and 2 for a size; the length and the data, or rows and columns, low bytes first. */
  lemma OnTheWire(m: Message)
    ensures var b := Encode(m);
            match m
            case Data(bytes) =>
              |b| == 3 + |bytes| && b[0] == 1 && b[1] + b[2] as int * 0x100 == |bytes| % 0x1_0000 && b[3..] == bytes
            case Resize(rows, cols) =>
              |b| == 5 && b[0] == 2 && b[1] + b[2] as int * 0x100 == rows && b[3] + b[4] as int * 0x100 == cols
  {
    hide Le16;
    match m
    case Data(bytes) =>
      LeValue(|bytes|);
      var len := Le16(|bytes|);
      assert Encode(m) == [1, len[0], len[1]] + bytes;
    case Resize(rows, cols) =>
      LeValue(rows);
      LeValue(cols);
      var r, c := Le16(rows), Le16(cols);
      assert Encode(m) == [2, r[0], r[1], c[0], c[1]];
  }

  /** A byte that is no type is skipped; a zero reads as nothing there. */
  lemma OtherBytes(ty: u8, rest: seq<u8>)
    requires ty !in {1, 2}
    ensures Read([ty] + rest) == (if ty == 0 then WouldBlock else Unknown(ty), rest)
  {
    var stream := [ty] + rest;
    assert Padded(stream, 1)[0] == ty && Skip(stream, 1) == rest;
  }

  /** A message that fits is read back whole, and nothing of what follows is touched. */
  lemma ReadsOne(m: Message, rest: seq<u8>)
    requires Sendable(m)
    ensures Read(Encode(m) + rest) == (Effect(m), rest)
  {
    var stream := Encode(m) + rest;
    match m
    case Data(bytes) => ReadsData(bytes, rest, stream);
    case Resize(rows, cols) => ReadsSize(rows, cols, rest, stream);
  }

  lemma ReadsSize(rows: u16, cols: u16, rest: seq<u8>, stream: seq<u8>)
    requires stream == Encode(Resize(rows, cols)) + rest
    ensures Read(stream) == (if rows == 0 || cols == 0 then Failed else SetSize(rows, cols), rest)
  {
    LeValue(rows);
    LeValue(cols);
    hide Le16, FromLe16;
    var b := Le16(rows) + Le16(cols);
    assert Padded(stream, 1) == [RESIZE];
    var tail := stream[1..];
    assert tail == b + rest;
    assert tail[..4] == b && tail[4..] == rest;
    assert Padded(tail, 4) == b;
  }

  lemma ReadsData(bytes: seq<u8>, rest: seq<u8>, stream: seq<u8>)
    requires stream == Encode(Data(bytes)) + rest
    ensures var n := |bytes| % 0x1_0000;
            Read(stream) == if n == 0 then (Failed, bytes + rest)
                            else (WriteToTty(Take(bytes + rest, n)), Skip(bytes + rest, n))
    ensures 1 <= |bytes| <= 0xFFFF ==> Read(stream) == (WriteToTty(bytes), rest)
  {
    hide Read;
    hide Le16;
    hide FromLe16;
    LeValue(|bytes|);
    var len := Le16(|bytes|);
    assert stream == [DATA, len[0], len[1]] + (bytes + rest);
    ReadsBody(len[0], len[1], bytes + rest, stream);
    if 1 <= |bytes| <= 0xFFFF {
      assert (bytes + rest)[..|bytes|] == bytes && (bytes + rest)[|bytes|..] == rest;
    }
  }

  /** The header of a data message decides how much of what follows is its body. */
  lemma ReadsBody(lo: u8, hi: u8, body: seq<u8>, stream: seq<u8>)
    requires stream == [DATA, lo, hi] + body
    ensures var n := FromLe16(lo, hi);
            Read(stream) == if n == 0 then (Failed, body) else (WriteToTty(Take(body, n)), Skip(body, n))
  {
    assert Padded(stream, 1) == [DATA];
    var tail := stream[1..];
    assert tail == [lo, hi] + body;
    assert tail[..2] == [lo, hi] && tail[2..] == body;
    assert Padded(tail, 2) == [lo, hi];
  }

  /**
   A stretch of the stream that has arrived whole: every sequence of sendable messages in it is
   read back as itself, one action per message, in order, then nothing more.
   */
  lemma {:induction false} RoundTrip(ms: seq<Message>)
    requires forall i :: 0 <= i < |ms| ==> Sendable(ms[i])
    ensures ReadAll(EncodeAll(ms)) == Effects(ms)
  {
    if ms != [] {
      ReadsOne(ms[0], EncodeAll(ms[1..]));
      RoundTrip(ms[1..]);
    }
  }

  /** Data that is empty, or longer than the length field can say, is not read back as itself. */
  lemma UnsendableData(bytes: seq<u8>)
    requires |bytes| == 0 || |bytes| > 0xFFFF
    ensures Read(Encode(Data(bytes))).0 != WriteToTty(bytes)
  {
    var stream := Encode(Data(bytes));
    assert bytes + [] == bytes && stream + [] == stream;
    ReadsData(bytes, [], stream);
    var n := |bytes| % 0x1_0000;
    assert n == 0 || |Take(bytes, n)| < |bytes|;
  }

  lemma UnsendableResize(rows: u16, cols: u16)
    requires rows == 0 || cols == 0
    ensures Read(Encode(Resize(rows, cols))).0 == Failed
  {
    var stream := Encode(Resize(rows, cols));
    assert stream + [] == stream;
    ReadsSize(rows, cols, [], stream);
  }

  /**
   A single message is read back as itself exactly when it is sendable: an empty message or a
   zero size fails, and data that does not fit the length field is cut.
   */
  lemma RoundTripIff(m: Message)
    ensures ReadAll(Encode(m)) == [Effect(m), WouldBlock] <==> Sendable(m)
  {
    assert ReadAll(Encode(m))[0] == Read(Encode(m)).0;
    if Sendable(m) {
      assert Encode(m) + [] == Encode(m);
      ReadsOne(m, []);
    } else {
      match m
      case Data(bytes) => UnsendableData(bytes);
      case Resize(rows, cols) => UnsendableResize(rows, cols);
    }
  }

  //
  // Arrival in pieces
  //

  /** Bytes arrive in pieces; each is read, after what was left before it, until nothing more can be. */
  function Serve(left: seq<u8>, pieces: seq<seq<u8>>): (r: seq<Action>)
    decreases pieces
  {
    if pieces == [] then []
    else
      var actions := ReadAll(left + pieces[0]);
      if Failed in actions then actions else actions + Serve(Left(left + pieces[0]), pieces[1..])
  }

  /** The actions without the waits. */
  function Said(actions: seq<Action>): (r: seq<Action>)
  {
    if actions == [] then []
    else if actions[0] == WouldBlock then Said(actions[1..])
    else [actions[0]] + Said(actions[1..])
  }

  function Shown(ms: seq<Message>): (r: seq<Action>)
    ensures |r| == |ms| && forall i :: 0 <= i < |ms| ==> r[i] == Effect(ms[i])
  {
    seq(|ms|, i requires 0 <= i < |ms| => Effect(ms[i]))
  }

  /** All pieces together. */
  function Rest(pieces: seq<seq<u8>>): (r: seq<u8>)
  {
    if pieces == [] then [] else pieces[0] + Rest(pieces[1..])
  }

  /** Where the first `k` messages end in the stream. */
  function EndOf(ms: seq<Message>, k: nat): (r: nat)
    requires k <= |ms|
  {
    if k == 0 then 0 else EndOf(ms, k - 1) + |Encode(ms[k - 1])|
  }

  ghost predicate Boundary(ms: seq<Message>, pos: nat)
  {
    exists k :: 0 <= k <= |ms| && EndOf(ms, k) == pos
  }

  /** A size of less than 256 columns ends in a zero byte. */
  predicate EndsInZero(m: Message)
  {
    m.Resize? && m.cols < 0x100
  }

  /** All of a size but its zero last byte ends at `pos`. */
  ghost predicate BeforeZero(ms: seq<Message>, pos: nat)
  {
    exists k :: 0 <= k < |ms| && ZeroFollows(ms, k, pos)
  }

  predicate ZeroFollows(ms: seq<Message>, k: nat, pos: nat)
    requires k < |ms|
  {
    EndsInZero(ms[k]) && pos == EndOf(ms, k) + 4
  }

  /**
   Where reading stops in the stream, and how many bytes that have arrived it leaves, once the
   next piece, of `n` bytes, has arrived: before the zero of a size, only the zero is read, and
   it reads as nothing there; else everything is.
   */
  ghost function StopAfter(ms: seq<Message>, pos: nat, held: nat, n: nat): (r: (nat, nat))
  {
    if BeforeZero(ms, pos) && n > 0 then (pos + 1, held + n - 1) else (pos + held + n, 0)
  }

  /**
   From `pos` on, with `held` bytes left there, reading stops only where a message ends or before
   the zero of a size, and leaves nothing after the last piece.
   */
  ghost predicate StopsRight(ms: seq<Message>, pieces: seq<seq<u8>>, pos: nat, held: nat)
    decreases pieces
  {
    && (Boundary(ms, pos) || BeforeZero(ms, pos))
    && if pieces == [] then held == 0
       else
         var (pos', held') := StopAfter(ms, pos, held, |pieces[0]|);
         StopsRight(ms, pieces[1..], pos', held')
  }

  predicate AllSendable(ms: seq<Message>)
  {
    forall i :: 0 <= i < |ms| ==> Sendable(ms[i])
  }

  lemma SaidFirst(action: Action, actions: seq<Action>)
    ensures Said([action] + actions) == (if action == WouldBlock then [] else [action]) + Said(actions)
  {
    assert ([action] + actions)[1..] == actions;
  }

  lemma {:induction false} SaidConcat(a: seq<Action>, b: seq<Action>)
    ensures Said(a + b) == Said(a) + Said(b)
  {
    if a == [] {
      assert a + b == b;
    } else {
      hide Said;
      var action, rest := a[0], a[1..];
      assert a == [action] + rest && a + b == [action] + (rest + b);
      SaidConcat(rest, b);
      SaidFirst(action, rest);
      SaidFirst(action, rest + b);
    }
  }

  lemma {:induction false} SaidShown(ms: seq<Message>)
    ensures Said(Shown(ms)) == Shown(ms)
  {
    if ms != [] {
      SaidShown(ms[1..]);
      assert Shown(ms)[1..] == Shown(ms[1..]);
      assert Shown(ms) == [Effect(ms[0])] + Shown(ms[1..]);
    }
  }

  lemma NeverEmpty(m: Message)
    ensures |Encode(m)| > 0
  {
  }

  /** Whole messages are read, and reading goes on with what follows them. */
  lemma {:induction false} ReadsOn(ms: seq<Message>, part: seq<u8>)
    requires AllSendable(ms)
    ensures ReadAll(EncodeAll(ms) + part) == Shown(ms) + ReadAll(part)
    ensures Left(EncodeAll(ms) + part) == Left(part)
  {
    hide Read, Encode;
    if ms == [] {
      assert EncodeAll(ms) + part == part && Shown(ms) + ReadAll(part) == ReadAll(part);
    } else {
      NeverEmpty(ms[0]);
      var stream := EncodeAll(ms) + part;
      assert stream == Encode(ms[0]) + (EncodeAll(ms[1..]) + part);
      ReadsOne(ms[0], EncodeAll(ms[1..]) + part);
      ReadsOn(ms[1..], part);
      assert Shown(ms) == [Effect(ms[0])] + Shown(ms[1..]);
    }
  }

  lemma EncodeFirst(m: Message, ms: seq<Message>)
    ensures EncodeAll([m] + ms) == Encode(m) + EncodeAll(ms)
  {
    hide Encode;
    assert ([m] + ms)[1..] == ms;
  }

  lemma EncodeNone()
    ensures EncodeAll([]) == []
  {
  }

  lemma {:induction false} EncodeConcat(a: seq<Message>, b: seq<Message>)
    ensures EncodeAll(a + b) == EncodeAll(a) + EncodeAll(b)
  {
    hide EncodeAll, Encode;
    if a == [] {
      EncodeNone();
      assert a + b == b && [] + EncodeAll(b) == EncodeAll(b);
    } else {
      var m, rest := a[0], a[1..];
      assert a == [m] + rest && a + b == [m] + (rest + b);
      EncodeConcat(rest, b);
      EncodeFirst(m, rest);
      EncodeFirst(m, rest + b);
      assert Encode(m) + (EncodeAll(rest) + EncodeAll(b)) == Encode(m) + EncodeAll(rest) + EncodeAll(b);
    }
  }

  lemma {:induction false} EndOfIs(ms: seq<Message>, k: nat)
    requires k <= |ms|
    ensures EndOf(ms, k) == |EncodeAll(ms[..k])|
  {
    hide Encode;
    if k > 0 {
      EndOfIs(ms, k - 1);
      EncodeConcat(ms[..k - 1], [ms[k - 1]]);
      assert ms[..k] == ms[..k - 1] + [ms[k - 1]];
    }
  }

  lemma {:induction false} EndsGrow(ms: seq<Message>, j: nat, k: nat)
    requires j < k <= |ms|
    ensures EndOf(ms, j) < EndOf(ms, k)
  {
    hide Encode, EndOf;
    EndOfNext(ms, k - 1);
    if j < k - 1 {
      EndsGrow(ms, j, k - 1);
    }
  }

  /** A position inside message `k` is inside no other. */
  lemma InsideOne(ms: seq<Message>, k: nat, j: nat, pos: nat)
    requires k < |ms| && j < |ms| && EndOf(ms, k) < pos < EndOf(ms, k + 1) && EndOf(ms, j) < pos < EndOf(ms, j + 1)
    ensures j == k
  {
    hide Encode, EndOf;
    if j + 1 < k {
      EndsGrow(ms, j + 1, k);
    } else if k + 1 < j {
      EndsGrow(ms, k + 1, j);
    }
  }

  lemma EndOfNext(ms: seq<Message>, k: nat)
    requires k < |ms|
    ensures EndOf(ms, k + 1) == EndOf(ms, k) + |Encode(ms[k])| > EndOf(ms, k)
    ensures EndsInZero(ms[k]) ==> |Encode(ms[k])| == 5
  {
  }

  /** Where a message ends, no zero of a size follows. */
  lemma StopAtEnd(ms: seq<Message>, k: nat)
    requires k <= |ms|
    ensures Boundary(ms, EndOf(ms, k)) && !BeforeZero(ms, EndOf(ms, k))
  {
    forall j | 0 <= j < |ms| ensures !ZeroFollows(ms, j, EndOf(ms, k)) {
      if ZeroFollows(ms, j, EndOf(ms, k)) {
        EndOfNext(ms, j);
        NoEndInside(ms, j, EndOf(ms, k));
        assert Boundary(ms, EndOf(ms, k));
      }
    }
  }

  lemma NoEndInside(ms: seq<Message>, k: nat, pos: nat)
    requires k < |ms| && EndOf(ms, k) < pos < EndOf(ms, k + 1)
    ensures !Boundary(ms, pos)
  {
    hide Encode, EndOf;
    forall j | 0 <= j <= |ms| ensures EndOf(ms, j) != pos {
      if j < k {
        EndsGrow(ms, j, k);
      } else if j > k + 1 {
        EndsGrow(ms, k + 1, j);
      }
    }
  }

  lemma StopBeforeZero(ms: seq<Message>, k: nat)
    requires k < |ms| && EndsInZero(ms[k])
    ensures EndOf(ms, k + 1) == EndOf(ms, k) + 5 && BeforeZero(ms, EndOf(ms, k) + 4)
  {
    assert ZeroFollows(ms, k, EndOf(ms, k) + 4);
  }

  /** Anywhere else inside a message, reading must not stop. */
  lemma StopInside(ms: seq<Message>, k: nat, n: nat)
    requires k < |ms| && 0 < n < |Encode(ms[k])| && !(EndsInZero(ms[k]) && n == 4)
    ensures !Boundary(ms, EndOf(ms, k) + n) && !BeforeZero(ms, EndOf(ms, k) + n)
  {
    hide Encode, EndOf, Boundary;
    var pos := EndOf(ms, k) + n;
    EndOfNext(ms, k);
    NoEndInside(ms, k, pos);
    forall j | 0 <= j < |ms| ensures !ZeroFollows(ms, j, pos) {
      if ZeroFollows(ms, j, pos) {
        EndOfNext(ms, j);
        InsideOne(ms, k, j, pos);
      }
    }
  }

  /** A piece holds some whole messages and the beginning of the next. */
  lemma {:induction false} CutPoint(ms: seq<Message>, piece: seq<u8>) returns (k: nat, part: seq<u8>)
    requires piece <= EncodeAll(ms)
    ensures k <= |ms| && piece == EncodeAll(ms[..k]) + part
    ensures part == [] || (k < |ms| && |part| < |Encode(ms[k])| && part == Encode(ms[k])[..|part|])
  {
    hide Encode;
    if ms == [] || |piece| < |Encode(ms[0])| {
      k, part := 0, piece;
    } else {
      var n := |Encode(ms[0])|;
      assert EncodeAll(ms)[n..] == EncodeAll(ms[1..]);
      k, part := CutPoint(ms[1..], piece[n..]);
      assert ms[..k + 1][1..] == ms[1..][..k];
      assert piece == piece[..n] + piece[n..];
      k := k + 1;
    }
  }

  /** A message cut short does something else. */
  lemma CutMisreads(m: Message, n: nat)
    requires Sendable(m) && 0 < n < |Encode(m)| && !(EndsInZero(m) && n == 4)
    ensures Read(Encode(m)[..n]).0 != WouldBlock && Read(Encode(m)[..n]).0 != Effect(m)
  {
    match m
    case Data(bytes) => CutDataMisreads(bytes, n);
    case Resize(rows, cols) => CutSizeMisreads(rows, cols, n);
  }

  lemma CutDataMisreads(bytes: seq<u8>, n: nat)
    requires 1 <= |bytes| <= 0xFFFF && 0 < n < 3 + |bytes|
    ensures var r := Read(Encode(Data(bytes))[..n]).0; r != WouldBlock && r != WriteToTty(bytes)
  {
    var part := Encode(Data(bytes))[..n];
    var len := Le16(|bytes|);
    LeValue(|bytes|);
    if n == 1 {
      assert part == [DATA];
    } else if n == 2 {
      assert part == [DATA, len[0]];
      assert Padded([len[0]], 2) == [len[0], 0];
    } else {
      assert part == [DATA, len[0], len[1]] + bytes[..n - 3];
      ReadsBody(len[0], len[1], bytes[..n - 3], part);
    }
  }

  lemma CutSizeMisreads(rows: u16, cols: u16, n: nat)
    requires rows > 0 && cols > 0 && 0 < n < 5 && !(cols < 0x100 && n == 4)
    ensures var r := Read(Encode(Resize(rows, cols))[..n]).0; r != WouldBlock && r != SetSize(rows, cols)
  {
    var r, c := Le16(rows), Le16(cols);
    var part := Encode(Resize(rows, cols))[..n];
    var whole := [RESIZE, r[0], r[1], c[0], c[1]];
    assert part == whole[..n];
    var b := Padded(part[1..], 4);
    assert b == [if n > 1 then r[0] else 0, if n > 2 then r[1] else 0, if n > 3 then c[0] else 0, 0];
    LeValue(rows);
    LeValue(cols);
  }

  lemma NothingLeft()
    ensures ReadAll([]) == [WouldBlock] && Left([]) == []
  {
  }

  lemma WholePieceServes(ms: seq<Message>, left: seq<u8>, pieces: seq<seq<u8>>)
    requires pieces != [] && AllSendable(ms) && left + pieces[0] == EncodeAll(ms)
    ensures Serve(left, pieces) == Shown(ms) + [WouldBlock] + Serve([], pieces[1..])
  {
    ReadsOn(ms, []);
    NothingLeft();
    hide Read, Encode, EncodeAll, ReadAll, Left, AllSendable;
    assert left + pieces[0] == EncodeAll(ms) + [];
    assert Failed !in Shown(ms) + [WouldBlock];
  }

  /** A piece that ends with a message shows the messages, and leaves nothing. */
  lemma WholePieceShows(ms: seq<Message>, left: seq<u8>, pieces: seq<seq<u8>>)
    requires pieces != [] && AllSendable(ms) && left + pieces[0] == EncodeAll(ms)
    ensures Said(Serve(left, pieces)) == Shown(ms) + Said(Serve([], pieces[1..]))
  {
    hide Encode, EncodeAll, Serve, AllSendable, Shown, Said;
    WholePieceServes(ms, left, pieces);
    SaidShown(ms);
    SaidAndWaits(Shown(ms), Serve([], pieces[1..]));
  }

  lemma SaidAndWaits(a: seq<Action>, b: seq<Action>)
    requires Said(a) == a
    ensures Said(a + [WouldBlock] + b) == a + Said(b)
  {
    SaidConcat(a + [WouldBlock], b);
    SaidConcat(a, [WouldBlock]);
  }

  lemma ZeroPieceServes(ms: seq<Message>, action: Action, part: seq<u8>, left: seq<u8>, pieces: seq<seq<u8>>)
    requires pieces != [] && AllSendable(ms) && left + pieces[0] == EncodeAll(ms) + part
    requires part != [] && Read(part) == (action, []) && action != WouldBlock && action != Failed
    ensures Serve(left, pieces) == Shown(ms) + [action] + [WouldBlock] + Serve([], pieces[1..])
  {
    hide Read, Encode, EncodeAll, ReadAll, Left, AllSendable, Sendable;
    ReadThenNothing(part, action);
    ReadsOn(ms, part);
    assert Shown(ms) + [action, WouldBlock] == Shown(ms) + [action] + [WouldBlock];
    assert Failed !in Shown(ms) + [action, WouldBlock];
  }

  /** A piece that ends before the zero of a size shows that size too. */
  lemma ZeroPieceShows(ms: seq<Message>, m: Message, left: seq<u8>, pieces: seq<seq<u8>>)
    requires pieces != [] && AllSendable(ms) && Sendable(m) && EndsInZero(m)
    requires left + pieces[0] == EncodeAll(ms) + Encode(m)[..4]
    ensures Said(Serve(left, pieces)) == Shown(ms) + [Effect(m)] + Said(Serve([], pieces[1..]))
  {
    hide Read, Encode, EncodeAll, Serve, Said, AllSendable, Sendable, Shown;
    SizeIsRead(m);
    assert Encode(m)[..4] != [];
    ZeroPieceServes(ms, Effect(m), Encode(m)[..4], left, pieces);
    ShownAndWaits(ms, Effect(m), Serve([], pieces[1..]));
  }

  lemma ShownAndWaits(ms: seq<Message>, action: Action, more: seq<Action>)
    requires action != WouldBlock
    ensures Said(Shown(ms) + [action] + [WouldBlock] + more) == Shown(ms) + [action] + Said(more)
  {
    SaidOne(action);
    hide Said;
    SaidShown(ms);
    SaidConcat(Shown(ms), [action]);
    SaidAndWaits(Shown(ms) + [action], more);
  }

  lemma SaidOne(action: Action)
    requires action != WouldBlock
    ensures Said([action]) == [action]
  {
  }

  /** A piece that ends inside a message otherwise shows something else than that message. */
  lemma CutPieceShows(ms: seq<Message>, m: Message, part: seq<u8>, left: seq<u8>, pieces: seq<seq<u8>>)
    requires pieces != [] && AllSendable(ms) && Sendable(m) && left + pieces[0] == EncodeAll(ms) + part
    requires 0 < |part| < |Encode(m)| && part == Encode(m)[..|part|] && !(EndsInZero(m) && |part| == 4)
    ensures var said := Said(Serve(left, pieces)); |said| > |ms| && said[|ms|] != Effect(m)
  {
    hide Encode, EncodeAll;
    ReadsOn(ms, part);
    CutMisreads(m, |part|);
    var actions := Shown(ms) + ReadAll(part);
    SaidShown(ms);
    SaidConcat(Shown(ms), ReadAll(part));
    assert ReadAll(part)[0] == Read(part).0;
    if Failed !in actions {
      SaidConcat(actions, Serve(Left(part), pieces[1..]));
    }
  }

  /** A piece that begins with the zero of a size shows nothing, and all behind the zero is left. */
  lemma ZeroIsRead(next: seq<u8>, pieces: seq<seq<u8>>)
    requires pieces != [] && pieces[0] == [0] + next
    ensures Said(Serve([], pieces)) == Said(Serve(next, pieces[1..]))
  {
    ZeroWaits(next);
    hide ReadAll, Left;
    assert [] + pieces[0] == [0] + next;
    assert Serve([], pieces) == [WouldBlock] + Serve(next, pieces[1..]);
    SaidConcat([WouldBlock], Serve(next, pieces[1..]));
  }

  lemma NothingArrives(pieces: seq<seq<u8>>)
    requires pieces != [] && pieces[0] == []
    ensures Said(Serve([], pieces)) == Said(Serve([], pieces[1..]))
  {
    NothingLeft();
    hide ReadAll, Left;
    assert [] + pieces[0] == [];
    assert Serve([], pieces) == [WouldBlock] + Serve([], pieces[1..]);
    SaidConcat([WouldBlock], Serve([], pieces[1..]));
  }

  /** Messages `k` to `k + n` of the stream. */
  lemma EndOfPart(ms: seq<Message>, k: nat, n: nat)
    requires k + n <= |ms|
    ensures EncodeAll(ms[k..]) == EncodeAll(ms[k..k + n]) + EncodeAll(ms[k + n..])
    ensures EndOf(ms, k + n) == EndOf(ms, k) + |EncodeAll(ms[k..k + n])|
  {
    hide Encode, EncodeAll, EndOf;
    assert ms[..k + n] == ms[..k] + ms[k..k + n] && ms[k..] == ms[k..k + n] + ms[k + n..];
    EncodeConcat(ms[..k], ms[k..k + n]);
    EncodeConcat(ms[k..k + n], ms[k + n..]);
    EndOfIs(ms, k);
    EndOfIs(ms, k + n);
  }

  /** What follows a prefix of the stream. */
  lemma RestOf(left: seq<u8>, pieces: seq<seq<u8>>, front: seq<u8>, back: seq<u8>)
    requires pieces != [] && left + Rest(pieces) == front + back && left + pieces[0] == front
    ensures Rest(pieces[1..]) == back
  {
    var rest := Rest(pieces[1..]);
    assert Rest(pieces) == pieces[0] + rest;
    assert front + rest == front + back;
    assert (front + rest)[|front|..] == rest && (front + back)[|front|..] == back;
  }

  lemma EncodeNext(ms: seq<Message>, k: nat)
    requires k < |ms|
    ensures EncodeAll(ms[k..]) == Encode(ms[k]) + EncodeAll(ms[k + 1..])
  {
    assert ms[k..][1..] == ms[k + 1..];
  }

  /** After the last piece. */
  lemma AllShown(ms: seq<Message>, k: nat, left: seq<u8>)
    requires k <= |ms| && left == EncodeAll(ms[k..])
    ensures Said(Serve(left, [])) == Shown(ms[k..]) <==> left == []
  {
    assert Said(Serve(left, [])) == [];
    if k < |ms| {
      EncodeNext(ms, k);
      NeverEmpty(ms[k]);
    }
  }

  /** After the first `k` messages; with `zero`, all but the zero last byte of the last of them. */
  lemma {:induction false} PiecesFrom(ms: seq<Message>, pieces: seq<seq<u8>>, k: nat, zero: bool, left: seq<u8>)
    requires AllSendable(ms) && k <= |ms| && (zero ==> k > 0 && EndsInZero(ms[k - 1]) && left == [])
    requires left + Rest(pieces) == (if zero then [0] else []) + EncodeAll(ms[k..])
    ensures EndOf(ms, k) >= if zero then 1 else 0
    ensures Said(Serve(left, pieces)) == Shown(ms[k..]) <==>
            StopsRight(ms, pieces, EndOf(ms, k) - (if zero then 1 else 0), |left|)
    decreases |pieces|
  {
    hide Read, Encode, EncodeAll, Serve, Said, EndOf, Shown, BeforeZero, Boundary;
    if zero {
      StopBeforeZero(ms, k - 1);
      FromZero(ms, pieces, k);
    } else if pieces == [] {
      StopAtEnd(ms, k);
      assert left + Rest(pieces) == left && [] + EncodeAll(ms[k..]) == EncodeAll(ms[k..]);
      AllShown(ms, k, left);
    } else {
      StopAtEnd(ms, k);
      FromEnd(ms, pieces, k, left);
    }
  }

  /** Before the zero of a size. */
  lemma {:induction false} FromZero(ms: seq<Message>, pieces: seq<seq<u8>>, k: nat)
    requires AllSendable(ms) && 0 < k <= |ms| && EndsInZero(ms[k - 1]) && Rest(pieces) == [0] + EncodeAll(ms[k..])
    requires EndOf(ms, k) >= 1 && BeforeZero(ms, EndOf(ms, k) - 1)
    ensures Said(Serve([], pieces)) == Shown(ms[k..]) <==> StopsRight(ms, pieces, EndOf(ms, k) - 1, 0)
    decreases |pieces|, 0
  {
    hide Read, Encode, EncodeAll, Serve, Said, EndOf, Shown, BeforeZero, Boundary;
    var piece, rest := pieces[0], pieces[1..];
    assert Rest(pieces) == piece + Rest(rest);
    if piece == [] {
      NothingArrives(pieces);
      assert piece + Rest(rest) == [] + Rest(rest) == Rest(rest);
      PiecesFrom(ms, rest, k, true, []);
    } else {
      var next := piece[1..];
      assert piece[0] == 0 && piece == [0] + next;
      assert (piece + Rest(rest))[1..] == next + Rest(rest) && ([0] + EncodeAll(ms[k..]))[1..] == EncodeAll(ms[k..]);
      assert [] + EncodeAll(ms[k..]) == EncodeAll(ms[k..]);
      ZeroIsRead(next, pieces);
      PiecesFrom(ms, rest, k, false, next);
    }
  }

  /** Where a message ends. */
  lemma {:induction false} FromEnd(ms: seq<Message>, pieces: seq<seq<u8>>, k: nat, left: seq<u8>)
    requires AllSendable(ms) && k <= |ms| && pieces != [] && left + Rest(pieces) == EncodeAll(ms[k..])
    requires Boundary(ms, EndOf(ms, k)) && !BeforeZero(ms, EndOf(ms, k))
    ensures Said(Serve(left, pieces)) == Shown(ms[k..]) <==> StopsRight(ms, pieces, EndOf(ms, k), |left|)
    decreases |pieces|, 1
  {
    hide Read, Encode, EncodeAll, Serve, Said, EndOf, Shown, BeforeZero, Boundary, StopsRight;
    var rest := pieces[1..];
    var front := left + pieces[0];
    assert left + Rest(pieces) == front + Rest(rest);
    var n, part := CutPoint(ms[k..], front);
    assert ms[k..][..n] == ms[k..k + n];
    EndOfPart(ms, k, n);
    StopsNext(ms, pieces, EndOf(ms, k), |left|);
    if part == [] {
      assert front == EncodeAll(ms[k..k + n]);
      RestOf(left, pieces, front, EncodeAll(ms[k + n..]));
      FromWhole(ms, pieces, k, n, left);
    } else if EndsInZero(ms[k + n]) && |part| == 4 {
      assert ms[k..][n] == ms[k + n];
      SplitSize(ms, k + n);
      assert front + ([0] + EncodeAll(ms[k + n + 1..])) == EncodeAll(ms[k..]);
      RestOf(left, pieces, front, [0] + EncodeAll(ms[k + n + 1..]));
      FromSplit(ms, pieces, k, n, left);
    } else {
      assert ms[k..][n] == ms[k + n];
      FromCut(ms, pieces, k, n, part, left);
    }
  }

  /** Where the piece ends with a message. */
  lemma {:induction false} FromWhole(ms: seq<Message>, pieces: seq<seq<u8>>, k: nat, n: nat, left: seq<u8>)
    requires AllSendable(ms) && k + n <= |ms| && pieces != []
    requires left + pieces[0] == EncodeAll(ms[k..k + n]) && Rest(pieces[1..]) == EncodeAll(ms[k + n..])
    ensures Said(Serve(left, pieces)) == Shown(ms[k..]) <==> StopsRight(ms, pieces[1..], EndOf(ms, k + n), 0)
    decreases |pieces|, 0
  {
    hide Read, Encode, EncodeAll, Serve, Said, EndOf, Shown, BeforeZero, Boundary, StopsRight, Rest;
    WholePieceShows(ms[k..k + n], left, pieces);
    assert [] + Rest(pieces[1..]) == [] + EncodeAll(ms[k + n..]);
    PiecesFrom(ms, pieces[1..], k + n, false, []);
    ShownParts(ms, k, n);
  }

  /** Where the piece ends inside message `k + n` otherwise. */
  lemma FromCut(ms: seq<Message>, pieces: seq<seq<u8>>, k: nat, n: nat, part: seq<u8>, left: seq<u8>)
    requires AllSendable(ms) && k + n < |ms| && pieces != [] && left + pieces[0] == EncodeAll(ms[k..k + n]) + part
    requires 0 < |part| < |Encode(ms[k + n])| && part == Encode(ms[k + n])[..|part|]
    requires !(EndsInZero(ms[k + n]) && |part| == 4)
    ensures Said(Serve(left, pieces)) != Shown(ms[k..]) && !StopsRight(ms, pieces[1..], EndOf(ms, k + n) + |part|, 0)
  {
    hide Read, Encode, EncodeAll, Serve, Said, EndOf, Shown, BeforeZero, Boundary, StopsRight;
    assert Sendable(ms[k + n]);
    CutPieceShows(ms[k..k + n], ms[k + n], part, left, pieces);
    StopInside(ms, k + n, |part|);
    StopsHere(ms, pieces[1..], EndOf(ms, k + n) + |part|, 0);
    ShownAt(ms, k, n);
  }

  lemma StopsNext(ms: seq<Message>, pieces: seq<seq<u8>>, pos: nat, held: nat)
    requires pieces != [] && Boundary(ms, pos) && !BeforeZero(ms, pos)
    ensures StopsRight(ms, pieces, pos, held) <==> StopsRight(ms, pieces[1..], pos + held + |pieces[0]|, 0)
  {
    hide Boundary, BeforeZero;
  }

  lemma StopsHere(ms: seq<Message>, pieces: seq<seq<u8>>, pos: nat, held: nat)
    ensures StopsRight(ms, pieces, pos, held) ==> Boundary(ms, pos) || BeforeZero(ms, pos)
  {
    hide Boundary, BeforeZero;
  }

  /** Where the piece ends before the zero of message `k + n`. */
  lemma {:induction false} FromSplit(ms: seq<Message>, pieces: seq<seq<u8>>, k: nat, n: nat, left: seq<u8>)
    requires AllSendable(ms) && k + n < |ms| && pieces != [] && EndsInZero(ms[k + n])
    requires left + pieces[0] == EncodeAll(ms[k..k + n]) + Encode(ms[k + n])[..4]
    requires Rest(pieces[1..]) == [0] + EncodeAll(ms[k + n + 1..])
    ensures Said(Serve(left, pieces)) == Shown(ms[k..]) <==> StopsRight(ms, pieces[1..], EndOf(ms, k + n) + 4, 0)
    decreases |pieces|, 0
  {
    hide Read, Encode, EncodeAll, Serve, Said, EndOf, Shown, BeforeZero, Boundary, StopsRight;
    ZeroPieceShows(ms[k..k + n], ms[k + n], left, pieces);
    StopBeforeZero(ms, k + n);
    PiecesFrom(ms, pieces[1..], k + n + 1, true, []);
    ShownParts(ms, k, n);
    ShownNext(ms, k + n);
  }

  lemma SplitSize(ms: seq<Message>, k: nat)
    requires k < |ms| && EndsInZero(ms[k])
    ensures EncodeAll(ms[k..]) == Encode(ms[k])[..4] + ([0] + EncodeAll(ms[k + 1..]))
  {
    EncodeNext(ms, k);
    SizeSplits(ms[k]);
  }

  lemma ShownNext(ms: seq<Message>, k: nat)
    requires k < |ms|
    ensures Shown(ms[k..]) == [Effect(ms[k])] + Shown(ms[k + 1..])
  {
  }

  lemma ShownAt(ms: seq<Message>, k: nat, n: nat)
    requires k + n < |ms|
    ensures |Shown(ms[k..])| > n && Shown(ms[k..])[n] == Effect(ms[k + n])
  {
  }

  lemma ShownParts(ms: seq<Message>, k: nat, n: nat)
    requires k + n <= |ms|
    ensures Shown(ms[k..]) == Shown(ms[k..k + n]) + Shown(ms[k + n..])
  {
  }

  /**
   However the bytes of sendable messages arrive in pieces, each read until nothing more has
   arrived: the terminal is shown exactly those messages if and only if reading stops nowhere but
   at the end of a message or before the zero last byte of a size, and leaves nothing in the end.
   */
  lemma PiecesAreReadIff(ms: seq<Message>, pieces: seq<seq<u8>>)
    requires AllSendable(ms) && Rest(pieces) == EncodeAll(ms)
    ensures Said(Serve([], pieces)) == Shown(ms) <==> StopsRight(ms, pieces, 0, 0)
  {
    assert ms[0..] == ms && [] + Rest(pieces) == [] + EncodeAll(ms);
    PiecesFrom(ms, pieces, 0, false, []);
  }

  lemma NoZeroAtBoundary(ms: seq<Message>, pos: nat)
    requires Boundary(ms, pos)
    ensures !BeforeZero(ms, pos)
  {
    var k :| 0 <= k <= |ms| && EndOf(ms, k) == pos;
    StopAtEnd(ms, k);
  }

  ghost predicate EndsWithMessages(ms: seq<Message>, pieces: seq<seq<u8>>, pos: nat)
    decreases pieces
  {
    pieces != [] ==> Boundary(ms, pos + |pieces[0]|) && EndsWithMessages(ms, pieces[1..], pos + |pieces[0]|)
  }

  lemma {:induction false} WholePiecesStopRight(ms: seq<Message>, pieces: seq<seq<u8>>, pos: nat)
    requires Boundary(ms, pos) && EndsWithMessages(ms, pieces, pos)
    ensures StopsRight(ms, pieces, pos, 0)
    decreases pieces
  {
    hide Boundary, BeforeZero;
    NoZeroAtBoundary(ms, pos);
    if pieces != [] {
      WholePiecesStopRight(ms, pieces[1..], pos + |pieces[0]|);
    }
  }

  /** Pieces that all end with a message are read right. */
  lemma WholePiecesAreRead(ms: seq<Message>, pieces: seq<seq<u8>>)
    requires AllSendable(ms) && Rest(pieces) == EncodeAll(ms) && EndsWithMessages(ms, pieces, 0)
    ensures Said(Serve([], pieces)) == Shown(ms)
  {
    hide Encode, EncodeAll, Serve, Said, Shown;
    assert EndOf(ms, 0) == 0 && Boundary(ms, 0);
    WholePiecesStopRight(ms, pieces, 0);
    PiecesAreReadIff(ms, pieces);
  }

  /**
   A size that arrives without its zero last byte, after any messages, is read right, but the
   byte then reads as "nothing there": what arrives with it waits for the next piece.
   */
  lemma SizeBeforeItsZero(ms: seq<Message>, m: Message, next: seq<u8>, pieces: seq<seq<u8>>)
    requires AllSendable(ms) && Sendable(m) && EndsInZero(m)
    ensures Encode(m) == Encode(m)[..4] + [0]
    ensures Said(Serve([], [EncodeAll(ms) + Encode(m)[..4], [0] + next] + pieces))
            == Shown(ms) + [Effect(m)] + Said(Serve(next, pieces))
  {
    SizeSplits(m);
    hide Encode, EncodeAll, Serve, Said;
    var all := [EncodeAll(ms) + Encode(m)[..4], [0] + next] + pieces;
    assert [] + all[0] == EncodeAll(ms) + Encode(m)[..4];
    ZeroPieceShows(ms, m, [], all);
    assert all[1..] == [[0] + next] + pieces && all[1..][1..] == pieces;
    ZeroIsRead(next, all[1..]);
  }

  lemma SizeSplits(m: Message)
    requires EndsInZero(m)
    ensures |Encode(m)| == 5 && Encode(m) == Encode(m)[..4] + [0]
  {
    LeValue(m.cols);
  }

  lemma SizeIsRead(m: Message)
    requires Sendable(m) && EndsInZero(m)
    ensures |Encode(m)| == 5 && Read(Encode(m)[..4]) == (Effect(m), [])
  {
    var part := Encode(m)[..4];
    var r, c := Le16(m.rows), Le16(m.cols);
    LeValue(m.rows);
    LeValue(m.cols);
    assert part == [RESIZE, r[0], r[1], c[0]];
    assert Padded(part[1..], 4) == [r[0], r[1], c[0], 0];
  }

  lemma ReadThenNothing(part: seq<u8>, action: Action)
    requires part != [] && Read(part) == (action, []) && action != WouldBlock && action != Failed
    ensures ReadAll(part) == [action, WouldBlock] && Left(part) == []
  {
    NothingLeft();
    hide Read;
  }

  lemma ZeroWaits(next: seq<u8>)
    ensures ReadAll([0] + next) == [WouldBlock] && Left([0] + next) == next
  {
    assert Padded([0] + next, 1)[0] == 0;
    assert Skip([0] + next, 1) == next;
  }

  /** Data that a length cut short does not spoil. */
  predicate FewZeros(bytes: seq<u8>)
  {
    |bytes| < 0x100 && forall j :: 0 <= j < |bytes| ==> bytes[j] == 0
  }

  /**
   The length of a data message received one byte short, all the rest coming in time for the
   receives of the body: the message is shown exactly when it is shorter than 256 bytes and all
   zeros, and then one zero is left, which reads as nothing there.
   */
  lemma ShortLengthIff(bytes: seq<u8>, rest: seq<u8>, stream: seq<u8>)
    requires 1 <= |bytes| <= 0xFFFF && [DATA] + stream == Encode(Data(bytes)) + rest
    ensures var (action, left) := ReadData(stream, 1);
            && (action == WriteToTty(bytes) <==> FewZeros(bytes))
            && (action == WriteToTty(bytes) ==>
                  left == [0] + rest && ReadAll(left) == [WouldBlock] && Left(left) == rest)
  {
    var lo, hi := Le16(|bytes|)[0], Le16(|bytes|)[1];
    LeValue(|bytes|);
    hide Le16, FromLe16, ReadData, Encode, ReadAll, Left, Take, Skip, FewZeros;
    ShortStream(bytes, rest, stream);
    ShortRead(lo, [hi] + bytes + rest, stream);
    ShortBody(bytes, rest, lo, hi);
    ZeroWaits(rest);
  }

  lemma ShortStream(bytes: seq<u8>, rest: seq<u8>, stream: seq<u8>)
    requires [DATA] + stream == Encode(Data(bytes)) + rest
    ensures stream == [Le16(|bytes|)[0]] + ([Le16(|bytes|)[1]] + bytes + rest)
  {
    hide Le16;
    assert stream == ([DATA] + stream)[1..];
  }

  lemma ShortRead(lo: u8, body: seq<u8>, stream: seq<u8>)
    requires stream == [lo] + body
    ensures ReadData(stream, 1) == if lo == 0 then (Failed, body) else (WriteToTty(Take(body, lo)), Skip(body, lo))
  {
    assert Take(stream, 1) == [lo] && Padded([lo], 2) == [lo, 0] && Skip(stream, 1) == body;
  }

  /** The body that a short length asks for. */
  lemma ShortBody(bytes: seq<u8>, rest: seq<u8>, lo: u8, hi: u8)
    requires |bytes| == FromLe16(lo, hi) && |bytes| > 0
    ensures var body := [hi] + bytes + rest;
            && (Take(body, lo) == bytes <==> FewZeros(bytes))
            && (|bytes| < 0x100 ==> lo > 0)
            && (Take(body, lo) == bytes ==> Skip(body, lo) == [0] + rest)
  {
    var body := [hi] + bytes + rest;
    var got := Take(body, lo);
    assert got == body[..lo];
    assert forall j :: 0 < j < lo ==> got[j] == bytes[j - 1];
    if got == bytes {
      forall j | 0 <= j < |bytes| ensures bytes[j] == 0 {
        ShiftedZero(bytes, j);
      }
      assert Skip(body, lo) == body[lo..] == [bytes[lo - 1]] + rest;
    } else if hi == 0 {
      assert |got| == |bytes|;
    }
  }

  lemma {:induction false} ShiftedZero(bytes: seq<u8>, j: nat)
    requires j < |bytes| && bytes[0] == 0 && forall i :: 0 < i < |bytes| ==> bytes[i] == bytes[i - 1]
    ensures bytes[j] == 0
  {
    if j > 0 {
      ShiftedZero(bytes, j - 1);
    }
  }
}
