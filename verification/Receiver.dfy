/** The receive timer and the receiving methods of the ns-2 `MacTdma`. */
module Receiver {
  import opened Options
  import opened Reception

  /** `MacTdmaTimer`; its assertions are the preconditions here. */
  class Timer {
    var busy: bool
    var stime: real
    var rtime: real

    constructor ()
      ensures !busy
    {
      busy, stime, rtime := false, 0.0, 0.0;
    }

    function Due(): Option<real>
      reads this
    {
      if busy then Some(stime + rtime) else None
    }

    method Begin(now: real, time: real)
      requires !busy && 0.0 <= time
      modifies this
      ensures Due() == Some(now + time)
    {
      busy, stime, rtime := true, now, time;
    }

    method Stop()
      requires busy
      modifies this
      ensures Due() == None
    {
      busy, stime, rtime := false, 0.0, 0.0;
    }

    function Expire(now: real): real
      reads this
    {
      stime + rtime - now
    }
  }

  class Mac {
    const index: nat
    const mhRxPkt: Timer
    var radioActive: bool
    var sending: bool
    var rxState: RxState
    var pktRx: Option<Frame>
    ghost var log: seq<Arrival>
    ghost var first: nat
    ghost var delivered: seq<nat>

    /** The state of the receiver at time `now`. */
    ghost function Now(now: real): State
      reads this, mhRxPkt
    {
      State(index, now, rxState, pktRx, mhRxPkt.Due(), sending, radioActive, log, first, delivered)
    }

    constructor (address: nat)
      ensures Now(0.0) == Start(address) && fresh(mhRxPkt)
    {
      index := address;
      mhRxPkt := new Timer();
      radioActive, sending, rxState, pktRx := true, false, Idle, None;
      log, first, delivered := [], 0, [];
    }

    /** `sendUp`. */
    method SendUp(p: Frame, now: real)
      requires Sound(Now(now)) && FrameOk(p)
      modifies this, mhRxPkt
      ensures Enabled(old(Now(now)), Hear(p)) && Now(now) == Step(old(Now(now)), Hear(p))
    {
      if !radioActive || sending {
        log := log + [Arrival(p, now, Deaf)];
        return;
      }
      if rxState == Idle {
        rxState := Recv;
        pktRx := Some(p);
        mhRxPkt.Begin(now, p.duration);
        log, first := log + [Arrival(p, now, Begun)], |log|;
      } else {
        if pktRx.value.power / p.power >= p.threshold {
          log := log + [Arrival(p, now, Captured)];
        } else {
          Collision(p, now);
        }
      }
    }

    /** `collision`; its branch for `MAC_BUSY` and its default are never reached. */
    method Collision(p: Frame, now: real)
      requires Sound(Now(now)) && FrameOk(p) && rxState != Idle
      modifies this, mhRxPkt
      ensures old(mhRxPkt.busy) && Now(now) == Collide(old(Now(now)), p)
    {
      log := log + [Arrival(p, now, Collided)];
      match rxState
      case Recv =>
        rxState := Coll;
        Prolong(p, now);
      case Coll =>
        Prolong(p, now);
      case _ =>
        assert false;
    }

    /** Waits for the longer of the two frames. */
    method Prolong(p: Frame, now: real)
      requires mhRxPkt.busy && FrameOk(p)
      modifies this`pktRx, mhRxPkt
      ensures if old(mhRxPkt.Expire(now)) < p.duration then pktRx == Some(p) && mhRxPkt.Due() == Some(now + p.duration)
              else pktRx == old(pktRx) && mhRxPkt.Due() == old(mhRxPkt.Due())
    {
      if mhRxPkt.Expire(now) < p.duration {
        mhRxPkt.Stop();
        pktRx := Some(p);
        mhRxPkt.Begin(now, p.duration);
      }
    }

    /** `RxPktTdmaTimer::handle` and `recvHandler`; the frame that is passed up, if any. */
    method Handle(now: real) returns (up: Option<Frame>)
      requires Sound(Now(now)) && mhRxPkt.Due() == Some(now)
      modifies this, mhRxPkt
      ensures Enabled(old(Now(now)), Fire) && Now(now) == Step(old(Now(now)), Fire)
      ensures if |delivered| == |old(delivered)| then up == None else up == old(pktRx)
    {
      mhRxPkt.Stop();
      if rxState == Coll {
        rxState := Idle;
        return None;
      } else if rxState == Busy {
        assert false;
      } else {
        rxState := Idle;
        var p := pktRx.value;
        if p.dst != BROADCAST && p.dst != index { return None; }
        delivered := delivered + [first];
        return Some(p);
      }
    }
  }
}
