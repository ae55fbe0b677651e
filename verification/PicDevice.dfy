/** The interrupt controller and the host object that polls it. */
module PicDevice {
  import opened Memory
  import P = Pic

  class PIC8259 {
    var imr: bv8
    var irr: bv8
    var isr: bv8

    constructor ()
      ensures State() == P.RESET
    {
      imr, irr, isr := 0xFF, 0, 0;
    }

    ghost function State(): P.Pic
      reads this
    {
      P.Pic(imr, irr, isr)
    }

    method RaiseIrq(n: nat)
      modifies this`irr
      ensures State() == P.RaiseIrq(old(State()), n) && P.Raised(old(State()), State(), n)
    {
      P.RaiseMeans(State(), n);
      irr := P.Or(irr, P.Line(n % 8));
    }

    method SetMask(value: bv8)
      modifies this`imr
      ensures State() == P.SetMask(old(State()), value)
    {
      imr := value;
    }

    method Eoi()
      modifies this`isr
      ensures State() == P.Eoi(old(State())) && P.Ended(old(State()), State())
    {
      P.EoiMeans(State());
      hide P.Ended;
      if isr != 0 {
        isr := P.ClearLowest(isr);
      }
    }

    method Acknowledge() returns (irq: Option<nat>)
      modifies this`irr, this`isr
      ensures (State(), irq) == P.Acknowledge(old(State())) && P.Acknowledged(old(State()), State(), irq)
    {
      P.AcknowledgeMeans(State());
      hide P.Index, P.LowestBit, P.Or, P.AndNot, P.Acknowledged;
      if isr != 0 {
        return None;
      }
      var pending := P.AndNot(irr, imr);
      if pending == 0 {
        return None;
      }
      var cand := P.LowestBit(pending);
      irr := P.AndNot(irr, cand);
      isr := P.Or(isr, cand);
      irq := Some(P.Index(cand));
    }
  }

  class DOS4GWHost {
    const pic: PIC8259
    var timerNext: Option<int>

    constructor (controller: PIC8259)
      ensures pic == controller && timerNext == None
    {
      pic, timerNext := controller, None;
    }

    ghost function State(): P.Host
      reads this, pic
    {
      P.Host(pic.State(), timerNext)
    }

    method RaiseAll(lines: seq<nat>)
      modifies pic`irr
      ensures pic.State() == P.RaiseAll(old(pic.State()), lines)
    {
      hide P.RaiseIrq;
      for i := 0 to |lines|
        invariant pic.State() == P.RaiseAll(old(pic.State()), lines[..i])
      {
        assert lines[..i + 1][..i] == lines[..i];
        pic.RaiseIrq(lines[i]);
      }
      assert lines[..|lines|] == lines;
    }

    /** The CPU's poll at an instruction boundary. */
    method PendingIrq(w: P.World) returns (irq: Option<nat>)
      modifies this`timerNext, pic
      ensures (State(), irq) == P.PendingIrq(old(State()), w) && P.Delivered(old(State()), w, State(), irq)
    {
      P.PendingIrqMeans(State(), w);
      hide P.RaiseIrq, P.Acknowledge, P.Eoi, P.RaiseAll, P.Delivered;
      RaiseAll(w.raised);
      if w.scanCode {
        pic.RaiseIrq(1);
      }
      if w.period.Some? {
        if timerNext.None? {
          timerNext := Some(w.clock + w.period.value);
        }
        if w.clock >= timerNext.value {
          timerNext := Some(timerNext.value + w.period.value);
          pic.RaiseIrq(0);
        }
      }
      irq := pic.Acknowledge();
      if irq.Some? && P.Unhooked(w, irq.value) {
        pic.Eoi();
        return None;
      }
    }
  }
}
