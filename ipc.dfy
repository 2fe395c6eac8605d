/**
 * The IPC connection the worker client talks through, seen from outside:
 * a connection with a state that the transport moves on its own, messages
 * it creates, accepts or hands out, and a ghost record of who is responsible
 * for freeing each message. The pipe implementation behind it is not
 * modelled: every outcome the transport decides is left open.
 */
module IPC {
  import opened Types

  /** IPC::ConnectionStates as the client sees them. */
  datatype ConnectionState = Waiting | Active | Closed

  /**
   * The moves the transport may make between two observations: a waiting
   * connection may connect or close, an active one may close, a closed one
   * stays closed.
   */
  predicate Transition(from: ConnectionState, to: ConnectionState)
  {
    from == to || from == Waiting || (from == Active && to == Closed)
  }

  /** Who must free a message: its creator, the transport (after a send it accepted), or nobody (deleted). */
  datatype Owner = Caller | Transport | Released

  /** What the peer receives for an accepted message. */
  datatype Frame = Frame(id: u32, data: seq<u8>)

  /** IPC::Message: an id and a data block of fixed size. */
  class Message {
    const id: u32
    const size: nat
    var data: seq<u8>
    ghost var owner: Owner

    ghost predicate Valid()
      reads this
    {
      |data| == size
    }

    constructor (id: u32, size: nat)
      ensures Valid() && this.id == id && this.size == size && owner == Caller
      ensures forall k :: 0 <= k < size ==> data[k] == 0
    {
      this.id := id;
      this.size := size;
      data := seq(size, _ => 0);
      owner := Caller;
    }
  }

  /** `delete msg`: only the owner of a message may free it, and only once. */
  method Delete(msg: Message)
    requires msg.owner == Caller
    modifies msg
    ensures msg.owner == Released && msg.data == old(msg.data)
  {
    msg.owner := Released;
  }

  /** IPC::Connection, with the transport's choices left open. */
  class Connection {
    var state: ConnectionState
    var channelName: string
    ghost var alive: bool            // not yet deleted
    ghost var created: set<Message>  // every message CreateMessage returned
    ghost var sent: seq<Frame>       // the messages the transport accepted, in order
    ghost var polls: nat             // how many times Receive was called

    constructor ()
      ensures state == Waiting && alive && created == {} && sent == [] && polls == 0
    {
      state := Waiting;
      channelName := [];
      alive := true;
      created := {};
      sent := [];
      polls := 0;
    }

    /** Starts connecting (as client or server) on the named channel. */
    method Initialize(isServer: bool, displayName: string, channelName: string)
      requires alive
      modifies this
      ensures alive && this.channelName == channelName && Transition(old(state), state)
      ensures created == old(created) && sent == old(sent) && polls == old(polls)
    {
      this.channelName := channelName;
      var next :| Transition(state, next);
      state := next;
    }

    /** Time passes (a Sleep of the caller): the transport may change the state. */
    method Elapse()
      requires alive
      modifies this`state
      ensures Transition(old(state), state)
    {
      var next :| Transition(state, next);
      state := next;
    }

    /** A new message with the given id and a zeroed data block of `size` bytes, owned by the caller. */
    method CreateMessage(id: u32, size: nat) returns (msg: Message)
      requires alive
      modifies this`created
      ensures fresh(msg) && msg.Valid() && msg.id == id && msg.size == size && msg.owner == Caller
      ensures forall k :: 0 <= k < size ==> msg.data[k] == 0
      ensures created == old(created) + {msg}
    {
      msg := new Message(id, size);
      created := created + {msg};
    }

    /**
     * Offers a message to the transport and returns the state after the
     * attempt. The transport accepts it, and takes it over, exactly when the
     * state reported is Active; otherwise the caller still owns it.
     */
    method Send(msg: Message) returns (result: ConnectionState)
      requires alive && msg.owner == Caller
      modifies this`state, this`sent, msg`owner
      ensures result == state && Transition(old(state), state)
      ensures result == Active ==>
        old(state) == Active && sent == old(sent) + [Frame(msg.id, msg.data)] && msg.owner == Transport
      ensures result != Active ==> sent == old(sent) && msg.owner == Caller
    {
      var next :| Transition(state, next) && (next == Active ==> state == Active);
      state := next;
      if state == Active {
        sent := sent + [Frame(msg.id, msg.data)];
        msg.owner := Transport;
      }
      result := state;
    }

    /**
     * Polls once for an incoming message. A message only arrives on an
     * active connection, and then belongs to the caller.
     */
    method Receive() returns (msg: Message?)
      requires alive
      modifies this`state, this`polls
      ensures polls == old(polls) + 1 && Transition(old(state), state)
      ensures msg != null ==> fresh(msg) && msg.Valid() && msg.owner == Caller && old(state) == Active
    {
      polls := polls + 1;
      msg := null;
      var arrived: bool :| true;
      if arrived && state == Active {
        var id: u32 :| true;
        var size: nat :| true;
        msg := new Message(id, size);
      }
      var next :| Transition(state, next);
      state := next;
    }

    /** `delete connection`: the connection may be deleted only once. */
    method Destroy()
      requires alive
      modifies this`alive
      ensures !alive
    {
      alive := false;
    }
  }
}
