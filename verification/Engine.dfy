/** The protocol engine: id bitmap, pairing table and stream accumulator, updated in place and proved
    against `Framing` and `Pairing`. */
module ProtocolEngine {
  import opened Bytes
  import opened ModbusFrame
  import C = Crc16
  import F = Framing
  import P = Pairing
  import S = StreamAccumulator

  class TransactionIdAllocator {
    const used: array<bool>

    ghost predicate Valid() { used.Length == 65536 }

    ghost function Used(): set<Word>
      requires Valid()
      reads used
    {
      set id: Word | used[id]
    }

    constructor ()
      ensures Valid() && fresh(used) && Used() == {}
    {
      used := new bool[65536](_ => false);
    }

    /** The lowest free id of 1..65535, or 0 when all are taken. */
    method Allocate() returns (tid: Word)
      requires Valid()
      modifies used
      ensures tid == P.LowestFree(old(Used()), 1)
      ensures Used() == if tid == P.INVALID_ID then old(Used()) else old(Used()) + {tid}
    {
      var id: nat := 1;
      while id <= 65535
        invariant 1 <= id <= 65536
        invariant P.LowestFree(Used(), 1) == P.LowestFree(Used(), id)
        invariant Used() == old(Used())
      {
        if !used[id] {
          used[id] := true;
          return id;
        }
        id := id + 1;
      }
      return P.INVALID_ID;
    }

    method Release(id: Word)
      requires Valid()
      modifies used
      ensures Used() == if id == P.INVALID_ID then old(Used()) else old(Used()) - {id}
    {
      if id != P.INVALID_ID {
        used[id] := false;
      }
    }

    method ClearInFlight()
      requires Valid()
      modifies used
      ensures Used() == {}
    {
      for id := 0 to 65536
        invariant forall k :: 0 <= k < id ==> !used[k]
      {
        used[id] := false;
      }
    }
  }

  class ModbusEngine {
    const transport: Transport
    const connected: bool      // a channel was given at construction
    const allocator: TransactionIdAllocator
    const accumulator: S.Accumulator
    var inFlight: map<Word, P.InFlight>

    ghost predicate Valid()
      reads this, accumulator
    {
      allocator.Valid() && accumulator.Valid() && P.INVALID_ID !in inFlight
    }

    ghost function Value(): P.State
      requires allocator.Valid()
      reads this, allocator.used
    {
      P.State(inFlight, allocator.Used())
    }

    constructor (transport: Transport, connected: bool)
      ensures Valid() && Value() == P.INITIAL && accumulator.Value() == F.EMPTY
      ensures fresh(allocator.used) && fresh(accumulator) && fresh(accumulator.buf)
    {
      this.transport := transport;
      this.connected := connected;
      allocator := new TransactionIdAllocator();
      accumulator := new S.Accumulator();
      inFlight := map[];
    }

    /** Builds, registers and writes one request. `taken` is the channel's answer to the write: the
        registration is undone when no frame could be built, but not when the channel refuses it. */
    method WriteRequest(req: Request, link: nat, table: seq<Word>, taken: bool) returns (frame: seq<Byte>, ok: bool)
      requires Valid() && C.IsTable(table)
      modifies this, allocator.used
      ensures Valid()
      ensures (Value(), frame) == if connected then P.Write(old(Value()), transport, req, link) else (old(Value()), [])
      ensures ok <==> frame != [] && taken
    {
      hide P.LowestFree;
      hide RequestBytes;
      hide C.Crc;
      if !connected {
        return [], false;
      }
      var r := req;
      if transport == Tcp && r.transport == Tcp {
        var tid := allocator.Allocate();
        if tid == P.INVALID_ID {
          return [], false;
        }
        r := r.(transactionId := tid);
        if tid !in inFlight {
          inFlight := inFlight[tid := P.InFlight(link, r.slave)];
        }
      }
      frame := BuildRequest(r, table);
      if frame == [] {
        if r.transactionId != 0 {
          inFlight := inFlight - {r.transactionId};
          allocator.Release(r.transactionId);
        }
      }
      ok := frame != [] && taken;
    }

    /** Routes one extracted frame. */
    method RouteFrame(frame: seq<Byte>, table: seq<Word>) returns (signals: seq<P.Signal>)
      requires Valid() && C.IsTable(table)
      modifies this, allocator.used
      ensures Valid()
      ensures (Value(), signals) == P.Route(old(Value()), transport, frame)
    {
      hide Parse;
      hide C.Crc;
      var resp: Option<Response>;
      if transport == Tcp {
        resp := ParseTcpResponse(frame);
      } else {
        resp := ParseRtuResponse(frame, table);
      }
      assert resp == Parse(frame, transport) by {
        ParseOf(frame, transport);
      }
      if resp.None? {
        return [P.FrameError(0, 0, P.Malformed)];
      }
      var link, slave := 0, resp.value.slave;
      if transport == Tcp {
        var tid := resp.value.transactionId;
        if tid !in inFlight {
          return [P.FrameError(0, resp.value.slave, P.Spurious)];
        }
        link, slave := inFlight[tid].link, inFlight[tid].slave;
        inFlight := inFlight - {tid};
        allocator.Release(tid);
      }
      signals := [P.ResponseParsed(link, slave, resp.value)];
      assert signals + [] == signals;
      if resp.value.isException {
        signals := signals + [P.FrameError(link, slave, P.Exception)];
      }
    }

    /** Bytes arrive: re-assemble, then route every complete frame in order. */
    method OnBytesReceived(data: seq<Byte>, table: seq<Word>) returns (signals: seq<P.Signal>)
      requires Valid() && C.IsTable(table)
      modifies this, allocator.used, accumulator, accumulator.buf
      ensures Valid()
      ensures data == [] ==> Value() == old(Value()) && accumulator.Value() == old(accumulator.Value()) && signals == []
      ensures data != [] ==> exists stale :: Processed(transport, stale,
        old(accumulator.Value()), old(Value()), data, accumulator.Value(), Value(), signals)
    {
      signals := [];
      if data == [] {
        return;
      }
      var frames := accumulator.Receive(data, transport == Tcp);
      ghost var queue := accumulator.Value();
      hide F.Receive;
      hide P.Route;
      for i := 0 to |frames|
        invariant Valid() && accumulator.Value() == queue
        invariant (Value(), signals) == P.RouteAll(old(Value()), transport, frames[..i])
      {
        assert frames[..i + 1][..i] == frames[..i];
        var s := RouteFrame(frames[i], table);
        signals := signals + s;
      }
      assert frames[..|frames|] == frames;
      ghost var stale :| (queue, frames) == F.Receive(old(accumulator.Value()), data, stale, transport == Tcp);
      assert Processed(transport, stale, old(accumulator.Value()), old(Value()), data, queue, Value(), signals);
    }

    method OnConnectionChanged(up: bool)
      requires Valid()
      modifies this, allocator.used
      ensures Valid() && Value() == if up then old(Value()) else P.INITIAL
      ensures accumulator.Value() == old(accumulator.Value())
    {
      if up {
        return;
      }
      inFlight := map[];
      allocator.ClearInFlight();
    }
  }

  /** What one chunk does: the framing rules on the byte queue, then pairing of every frame. */
  ghost predicate Processed(transport: Transport, stale: Byte, queue: F.Stream, table: P.State, data: seq<Byte>,
                            queue': F.Stream, table': P.State, signals: seq<P.Signal>) {
    var (q, frames) := F.Receive(queue, data, stale, transport == Tcp);
    queue' == q && (table', signals) == P.RouteAll(table, transport, frames)
  }

  lemma ParseOf(frame: seq<Byte>, transport: Transport)
    ensures Parse(frame, transport) == if transport == Tcp then ParseTcp(frame) else ParseRtu(frame)
  {
  }
}
