/**
 * Worker::Client (Libraries/Worker/Client.cpp): the worker process's side of
 * the connection to its manager. One global connection, created and polled
 * until it is active by Initialize, released by Cleanup (directly or from the
 * shutdown and terminate hooks), and used by Send, Receive and the console
 * hook that forwards every printed statement to the manager.
 */
module Worker {
  import opened Types
  import opened OrderedSets
  import opened IPC

  // ----- constants of Worker/Process.h and Worker/Client.h -----

  /** The message id reserved for console output (its value is not fixed here). */
  const ConsoleOutputMessage: u32

  /** How many one-millisecond polls Initialize allows without the Wait flag (its value is not fixed here). */
  const DefaultWorkerTimeout: nat

  /** sizeof(ConsoleOutput): three 32-bit header fields, stream, level and indent. */
  const ConsoleOutputHeaderSize: nat := 12

  const DebugChannelName: string := "worker_debug"
  const ChannelPrefix: string := "worker_"
  const DisplayName: string := "Worker Process Connection"

  // ----- the channel name -----

  predicate IsLowerHexDigit(c: char)
  {
    ('0' <= c <= '9') || ('a' <= c <= 'f')
  }

  ghost predicate IsLowerHex(s: string)
  {
    forall k :: 0 <= k < |s| ==> IsLowerHexDigit(s[k])
  }

  function LowerHexDigitValue(c: char): (v: nat)
    requires IsLowerHexDigit(c)
    ensures v < 16
  {
    if '0' <= c <= '9' then c as nat - '0' as nat else c as nat - 'a' as nat + 10
  }

  /** The value of a string of lower-case hex digits, most significant first. */
  function HexValue(s: string): nat
    requires IsLowerHex(s)
  {
    if s == [] then 0 else HexValue(s[..|s| - 1]) * 16 + LowerHexDigitValue(s[|s| - 1])
  }

  function LowerHexDigit(v: nat): (c: char)
    requires v < 16
    ensures IsLowerHexDigit(c) && LowerHexDigitValue(c) == v
  {
    if v < 10 then ('0' as nat + v) as char else ('a' as nat + v - 10) as char
  }

  /** What `stream << std::hex << n` writes: lower-case hex digits of `n`, no leading zero. */
  function Hex(n: nat): (s: string)
    ensures |s| >= 1 && IsLowerHex(s) && HexValue(s) == n
    ensures s[0] == '0' ==> s == "0"
  {
    if n < 16 then [LowerHexDigit(n)]
    else
      var s := Hex(n / 16) + [LowerHexDigit(n % 16)];
      assert s[..|s| - 1] == Hex(n / 16);
      s
  }

  /** The pipe name Initialize connects on. */
  function ChannelName(debug: bool, pid: u32): (name: string)
    ensures debug ==> name == DebugChannelName
    ensures !debug ==>
      && |name| > |ChannelPrefix| && name[..|ChannelPrefix|] == ChannelPrefix
      && IsLowerHex(name[|ChannelPrefix|..]) && HexValue(name[|ChannelPrefix|..]) == pid as nat
      && (name[|ChannelPrefix|] == '0' ==> name == ChannelPrefix + "0")
  {
    if debug then DebugChannelName
    else
      var name := ChannelPrefix + Hex(pid as nat);
      assert name[|ChannelPrefix|..] == Hex(pid as nat);
      name
  }

  /**
   * The manager can compute the name back: distinct process ids give distinct
   * names, and no process id gives the debug name.
   */
  lemma ChannelNamesDistinct(p: u32, q: u32)
    ensures ChannelName(false, p) == ChannelName(false, q) ==> p == q
    ensures ChannelName(false, p) != ChannelName(true, q)
  {
    var n := ChannelName(false, p);
    assert n[|ChannelPrefix|..] == Hex(p as nat);
    if n == ChannelName(false, q) {
      assert ChannelName(false, q)[|ChannelPrefix|..] == Hex(q as nat);
    }
    assert DebugChannelName[|ChannelPrefix| + 3] == 'u';
  }

  // ----- the console output payload -----

  /** A 32-bit field as four bytes, least significant first. */
  function LittleEndian(x: u32): (b: seq<u8>)
    ensures |b| == 4
  {
    [(x as int % 0x100) as u8, (x as int / 0x100 % 0x100) as u8,
     (x as int / 0x1_0000 % 0x100) as u8, (x as int / 0x100_0000) as u8]
  }

  function FromLittleEndian(b: seq<u8>): u32
    requires |b| == 4
  {
    (b[0] as int + 0x100 * b[1] as int + 0x1_0000 * b[2] as int + 0x100_0000 * b[3] as int) as u32
  }

  lemma LittleEndianRoundTrip(x: u32)
    ensures FromLittleEndian(LittleEndian(x)) == x
  {
    var n := x as int;
    var b := LittleEndian(x);
    assert n == n % 0x100 + 0x100 * (n / 0x100);
    assert n / 0x100 == n / 0x100 % 0x100 + 0x100 * (n / 0x1_0000);
    assert n / 0x1_0000 == n / 0x1_0000 % 0x100 + 0x100 * (n / 0x100_0000);
  }

  /** The size of the console output message for a text of `length` bytes: header, text and NUL. */
  function ConsoleOutputSize(length: nat): nat
  {
    ConsoleOutputHeaderSize + length + 1
  }

  /** A console output message's data: stream, level and indent, then the text and its NUL. */
  function ConsoleOutputData(stream: u32, level: u32, indent: u32, text: seq<u8>): (data: seq<u8>)
    ensures |data| == ConsoleOutputSize(|text|) && data[|data| - 1] == 0
  {
    LittleEndian(stream) + LittleEndian(level) + LittleEndian(indent) + text + [0]
  }

  /** What the manager reads out of a console output message; None when it is too short or not NUL-terminated. */
  function DecodeConsoleOutput(data: seq<u8>): Option<(u32, u32, u32, seq<u8>)>
  {
    if |data| < ConsoleOutputHeaderSize + 1 || data[|data| - 1] != 0 then None
    else Some((FromLittleEndian(data[0..4]), FromLittleEndian(data[4..8]), FromLittleEndian(data[8..12]),
               data[ConsoleOutputHeaderSize..|data| - 1]))
  }

  /** The manager reads back exactly the fields and the text the hook framed. */
  lemma ConsoleOutputRoundTrip(stream: u32, level: u32, indent: u32, text: seq<u8>)
    ensures DecodeConsoleOutput(ConsoleOutputData(stream, level, indent, text)) == Some((stream, level, indent, text))
  {
    var data := ConsoleOutputData(stream, level, indent, text);
    assert data[0..4] == LittleEndian(stream);
    assert data[4..8] == LittleEndian(level);
    assert data[8..12] == LittleEndian(indent);
    assert data[ConsoleOutputHeaderSize..|data| - 1] == text;
    LittleEndianRoundTrip(stream);
    LittleEndianRoundTrip(level);
    LittleEndianRoundTrip(indent);
  }

  /** `bytes` written over `data` at `offset`, the rest as it was (a memcpy into a message). */
  function Overwrite(data: seq<u8>, offset: nat, bytes: seq<u8>): (r: seq<u8>)
    requires offset + |bytes| <= |data|
    ensures |r| == |data|
    ensures forall k :: 0 <= k < |r| ==>
      r[k] == if offset <= k < offset + |bytes| then bytes[k - offset] else data[k]
  {
    data[..offset] + bytes + data[offset + |bytes|..]
  }

  /** Copying the three fields and the NUL-terminated text over a block of the message's size gives its data. */
  lemma ConsoleOutputFraming(block: seq<u8>, stream: u32, level: u32, indent: u32, text: seq<u8>)
    requires |block| == ConsoleOutputSize(|text|)
    ensures Overwrite(Overwrite(Overwrite(Overwrite(block, 0, LittleEndian(stream)), 4, LittleEndian(level)),
                                8, LittleEndian(indent)), ConsoleOutputHeaderSize, text + [0])
         == ConsoleOutputData(stream, level, indent, text)
  {
    var r := Overwrite(Overwrite(Overwrite(Overwrite(block, 0, LittleEndian(stream)), 4, LittleEndian(level)),
                                 8, LittleEndian(indent)), ConsoleOutputHeaderSize, text + [0]);
    var expected := ConsoleOutputData(stream, level, indent, text);
    forall k | 0 <= k < |block| ensures r[k] == expected[k] {
    }
  }

  // ----- Send -----

  /** The data block Send allocates: `size` bytes when there is data, none otherwise. */
  function SendSize(size: u32, data: Option<seq<u8>>): nat
  {
    if data.Some? then size as nat else 0
  }

  /** What the peer receives from Send: the first `size` bytes of the data, or nothing. */
  function SendPayload(size: u32, data: Option<seq<u8>>): (payload: seq<u8>)
    requires data.Some? ==> size as nat <= |data.value|
    ensures |payload| == SendSize(size, data)
    ensures data.Some? ==> payload == data.value[..size]
    ensures data.None? ==> payload == []
  {
    if data.Some? then data.value[..size] else []
  }

  /**
   * Copying the first `size` bytes of the data, when there is data and `size`
   * is not 0, over a block of the size Send allocates gives exactly the
   * payload, whatever the block held; otherwise the block already is it.
   */
  lemma SendPayloadFraming(block: seq<u8>, size: u32, data: Option<seq<u8>>)
    requires data.Some? ==> size as nat <= |data.value|
    requires |block| == SendSize(size, data)
    ensures (if data.Some? && size != 0 then Overwrite(block, 0, data.value[..size]) else block)
         == SendPayload(size, data)
  {
    if data.Some? && size != 0 {
      var r := Overwrite(block, 0, data.value[..size]);
      assert forall k :: 0 <= k < |r| ==> r[k] == data.value[..size][k];
    }
  }

  /**
   * The body of Send on an active connection: a message of SendSize bytes
   * holding the payload, offered to the transport and deleted unless it was
   * accepted.
   */
  method SendData(connection: Connection, id: u32, size: u32, data: Option<seq<u8>>)
    returns (ok: bool, msg: Message)
    requires connection.alive
    requires data.Some? ==> size as nat <= |data.value|
    modifies connection
    ensures fresh(msg) && connection.created == old(connection.created) + {msg}
    ensures connection.alive && connection.polls == old(connection.polls)
    ensures connection.channelName == old(connection.channelName)
    ensures Transition(old(connection.state), connection.state)
    ensures msg.id == id && msg.size == SendSize(size, data) && msg.data == SendPayload(size, data)
    ensures ok ==> connection.sent == old(connection.sent) + [Frame(id, SendPayload(size, data))] && msg.owner == Transport
    ensures !ok ==> connection.sent == old(connection.sent) && msg.owner == Released
    ensures ok <==> connection.state == Active
  {
    msg := connection.CreateMessage(id, SendSize(size, data));
    ghost var block := msg.data;
    if data.Some? && size != 0 {
      msg.data := Overwrite(msg.data, 0, data.value[..size]);
    }
    SendPayloadFraming(block, size, data);
    var result := connection.Send(msg);
    ok := result == Active;
    if !ok {
      Delete(msg);
    }
  }

  /**
   * The body of the printed-text hook on an active connection: a console
   * output message framed in a freshly created block, sent, and deleted
   * unless the transport took it.
   */
  method SendConsoleOutput(connection: Connection, stream: u32, level: u32, indent: u32, text: seq<u8>)
    returns (msg: Message)
    requires connection.alive
    requires ConsoleOutputSize(|text|) < 0x1_0000_0000
    modifies connection
    ensures fresh(msg) && connection.created == old(connection.created) + {msg}
    ensures connection.alive && connection.polls == old(connection.polls)
    ensures connection.channelName == old(connection.channelName)
    ensures Transition(old(connection.state), connection.state)
    ensures msg.id == ConsoleOutputMessage && msg.size == ConsoleOutputSize(|text|)
    ensures msg.data == ConsoleOutputData(stream, level, indent, text)
    ensures || (connection.sent == old(connection.sent) + [Frame(msg.id, msg.data)] && msg.owner == Transport)
            || (connection.sent == old(connection.sent) && msg.owner == Released)
    ensures msg.owner == Transport <==> connection.state == Active
  {
    var size := ConsoleOutputSize(|text|);
    msg := connection.CreateMessage(ConsoleOutputMessage, size);
    ghost var block := msg.data;
    msg.data := Overwrite(msg.data, 0, LittleEndian(stream));
    msg.data := Overwrite(msg.data, 4, LittleEndian(level));
    msg.data := Overwrite(msg.data, 8, LittleEndian(indent));
    msg.data := Overwrite(msg.data, ConsoleOutputHeaderSize, text + [0]);
    ConsoleOutputFraming(block, stream, level, indent, text);
    var result := connection.Send(msg);
    if result != Active {
      Delete(msg);
    }
  }

  // ----- the client -----

  /** The hooks Initialize registers with Console, AppUtils and Debug. */
  datatype Hook = PrintedHook | ShutdownHook | TerminateHook

  class Client {
    var connection: Connection?          // g_Connection
    var listeners: seq<Hook>             // the hooks registered so far
    ghost var deleted: seq<Connection>   // every connection deleted, in order

    /** The global connection, if any, is not yet deleted, and no connection was deleted twice. */
    ghost predicate Valid()
      reads this, connection
    {
      && (connection != null ==> connection.alive && connection !in deleted)
      && NoDuplicates(deleted)
    }

    constructor ()
      ensures Valid() && connection == null && listeners == [] && deleted == []
    {
      connection := null;
      listeners := [];
      deleted := [];
    }

    /**
     * Creates the connection on the channel name, then polls: at most
     * `DefaultWorkerTimeout` one-millisecond sleeps, or with the Wait flag for
     * as long as it takes (here: up to `fuel` sleeps). It succeeds exactly
     * when the connection is active at the end; only then are the hooks
     * registered. The connection stays set either way.
     */
    method Initialize(debug: bool, wait: bool, pid: u32, fuel: nat) returns (ok: bool, sleeps: nat)
      requires Valid()
      modifies this
      ensures Valid() && deleted == old(deleted)
      ensures connection != null && fresh(connection)
      ensures connection.channelName == ChannelName(debug, pid)
      ensures connection.created == {} && connection.sent == []
      ensures ok <==> connection.state == Active
      ensures ok ==> listeners == old(listeners) + [PrintedHook, ShutdownHook, TerminateHook]
      ensures !ok ==> listeners == old(listeners)
      ensures !wait ==> sleeps <= DefaultWorkerTimeout && (!ok ==> sleeps == DefaultWorkerTimeout)
      ensures wait ==> sleeps <= fuel && (!ok ==> sleeps == fuel)
    {
      var conn := new Connection();
      conn.Initialize(false, DisplayName, ChannelName(debug, pid));
      connection := conn;

      // a negative timeout never reaches 0: the wait is unbounded
      var timeout: int := DefaultWorkerTimeout;
      if wait {
        timeout := -1;
      }
      sleeps := 0;
      while timeout != 0 && conn.state != Active && (timeout > 0 || sleeps < fuel)
        invariant connection == conn && fresh(conn) && conn.alive
        invariant conn.channelName == ChannelName(debug, pid) && conn.created == {} && conn.sent == []
        invariant listeners == old(listeners) && deleted == old(deleted)
        invariant !wait ==> 0 <= timeout && timeout + sleeps == DefaultWorkerTimeout
        invariant wait ==> timeout == -1 && sleeps <= fuel
        decreases if wait then fuel - sleeps else timeout
      {
        if timeout > 0 {
          timeout := timeout - 1;
        }
        conn.Elapse();
        sleeps := sleeps + 1;
      }

      if conn.state != Active {
        return false, sleeps;
      }
      listeners := listeners + [PrintedHook, ShutdownHook, TerminateHook];
      ok := true;
    }

    /** Deletes the connection if there is one; with none it does nothing. */
    method Cleanup()
      requires Valid()
      modifies this, connection
      ensures Valid() && connection == null && listeners == old(listeners)
      ensures old(connection) != null ==> deleted == old(deleted) + [old(connection)] && !old(connection).alive
      ensures old(connection) == null ==> deleted == old(deleted)
    {
      if connection != null {
        connection.Destroy();
        assert NoDuplicates(deleted + [connection]);
        deleted := deleted + [connection];
        connection := null;
      }
    }

    /** The AppUtils shutdown hook. */
    method ShutdownListener()
      requires Valid()
      modifies this, connection
      ensures Valid() && connection == null && listeners == old(listeners)
      ensures old(connection) != null ==> deleted == old(deleted) + [old(connection)] && !old(connection).alive
      ensures old(connection) == null ==> deleted == old(deleted)
    {
      Cleanup();
    }

    /** The Debug terminate hook. */
    method TerminateListener()
      requires Valid()
      modifies this, connection
      ensures Valid() && connection == null && listeners == old(listeners)
      ensures old(connection) != null ==> deleted == old(deleted) + [old(connection)] && !old(connection).alive
      ensures old(connection) == null ==> deleted == old(deleted)
    {
      Cleanup();
    }

    /**
     * Sends a message with the first `size` bytes of `data` (none when there is
     * no data). Nothing is created unless the connection is active; the
     * message created is accepted by the transport exactly when the result is
     * true, and deleted otherwise, so no message is left to its creator. The
     * result is whether the connection is active after the send.
     */
    method Send(id: u32, size: u32, data: Option<seq<u8>>) returns (ok: bool)
      requires Valid()
      requires data.Some? ==> size as nat <= |data.value|
      modifies connection
      ensures Valid()
      ensures connection == null ==> !ok
      ensures connection != null ==>
        && connection.alive == old(connection.alive)
        && connection.polls == old(connection.polls)
        && connection.channelName == old(connection.channelName)
        && Transition(old(connection.state), connection.state)
        && (old(connection.state) != Active ==>
              !ok && connection.state == old(connection.state)
              && connection.created == old(connection.created) && connection.sent == old(connection.sent))
        && (old(connection.state) == Active ==> |connection.created - old(connection.created)| == 1)
        && (ok ==> connection.sent == old(connection.sent) + [Frame(id, SendPayload(size, data))])
        && (!ok ==> connection.sent == old(connection.sent))
        && (ok <==> connection.state == Active)
        && old(connection.created) <= connection.created
        && (forall m :: m in connection.created && m !in old(connection.created) ==>
              && m.id == id && m.size == SendSize(size, data) && m.data == SendPayload(size, data)
              && m.owner == (if ok then Transport else Released))
    {
      ok := false;
      if connection != null && connection.state == Active {
        ghost var before := connection.created;
        var msg;
        ok, msg := SendData(connection, id, size, data);
        assert msg !in before && connection.created - before == {msg};
      }
    }

    /**
     * Polls the connection once; with `wait`, keeps sleeping and polling while
     * the connection is active and nothing has arrived (here: for up to
     * `fuel` more polls). A message returned belongs to the caller.
     */
    method Receive(wait: bool, fuel: nat) returns (msg: Message?)
      requires Valid()
      modifies connection
      ensures Valid()
      ensures connection == null ==> msg == null
      ensures msg != null ==> fresh(msg) && msg.Valid() && msg.owner == Caller
      ensures connection != null ==>
        && connection.alive == old(connection.alive)
        && connection.channelName == old(connection.channelName)
        && Transition(old(connection.state), connection.state)
        && connection.created == old(connection.created) && connection.sent == old(connection.sent)
        && (!wait ==> connection.polls == old(connection.polls) + 1)
        && (wait ==> old(connection.polls) + 1 <= connection.polls <= old(connection.polls) + 1 + fuel)
        && (wait ==> msg != null || connection.state != Active || connection.polls == old(connection.polls) + 1 + fuel)
    {
      msg := null;
      if connection != null {
        msg := connection.Receive();
        if msg == null && wait {
          var spins := 0;
          while connection.state == Active && msg == null && spins < fuel
            invariant 0 <= spins <= fuel
            invariant connection.alive == old(connection.alive)
            invariant connection.channelName == old(connection.channelName)
            invariant Transition(old(connection.state), connection.state)
            invariant connection.created == old(connection.created) && connection.sent == old(connection.sent)
            invariant connection.polls == old(connection.polls) + 1 + spins
            invariant msg != null ==> fresh(msg) && msg.Valid() && msg.owner == Caller
            decreases fuel - spins
          {
            connection.Elapse();
            msg := connection.Receive();
            spins := spins + 1;
          }
        }
      }
    }

    /**
     * The Console printed hook: on an active connection, frames the statement
     * as a console output message (header fields, then the text and its NUL)
     * and sends it, deleting it when the send is not accepted. Otherwise it
     * does nothing.
     */
    method PrintedListener(stream: u32, level: u32, indent: u32, text: seq<u8>)
      requires Valid()
      requires ConsoleOutputSize(|text|) < 0x1_0000_0000
      modifies connection
      ensures Valid()
      ensures connection != null ==>
        && connection.alive == old(connection.alive)
        && connection.polls == old(connection.polls)
        && connection.channelName == old(connection.channelName)
        && Transition(old(connection.state), connection.state)
        && (old(connection.state) != Active ==>
              connection.state == old(connection.state)
              && connection.created == old(connection.created) && connection.sent == old(connection.sent))
        && (old(connection.state) == Active ==> |connection.created - old(connection.created)| == 1)
        && old(connection.created) <= connection.created
        && (connection.sent == old(connection.sent)
            || connection.sent == old(connection.sent)
                 + [Frame(ConsoleOutputMessage, ConsoleOutputData(stream, level, indent, text))])
        && (connection.sent != old(connection.sent) <==> connection.state == Active)
        && (forall m :: m in connection.created && m !in old(connection.created) ==>
              && m.id == ConsoleOutputMessage && m.size == ConsoleOutputSize(|text|)
              && m.data == ConsoleOutputData(stream, level, indent, text)
              && (m.owner == Transport <==> connection.sent != old(connection.sent))
              && m.owner != Caller)
    {
      if connection != null && connection.state == Active {
        ghost var before := connection.created;
        var msg := SendConsoleOutput(connection, stream, level, indent, text);
        assert msg !in before && connection.created - before == {msg};
        assert forall m :: m in connection.created && m !in before ==> m == msg;
      }
    }
  }
}
