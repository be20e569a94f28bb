/**
One channel of the handshake cell as a command sees it: the two real halves, the copy of the netX half
that the driver has cached, and the samples that the interrupt handler has taken but the DSR has not
consumed yet.  The DSR consumes an in-order subsequence of the samples.
*/
module CachedBit {
  datatype Line = Line(netx: bool, host: bool, cached: bool, pending: seq<bool>)

  /** With `v` in the netX half, is it the host's turn?  On a command bit it is while the halves are equal. */
  predicate Turn(l: Line, v: bool, command: bool) {
    (v == l.host) == command
  }

  predicate HostMay(l: Line, command: bool) { Turn(l, l.cached, command) }

  predicate FirmwareMay(l: Line, command: bool) { !Turn(l, l.netx, command) }

  function Sample(l: Line): Line { l.(pending := l.pending + [l.netx]) }

  function Deliver(l: Line, k: nat): Line
    requires k < |l.pending|
  {
    l.(cached := l.pending[k], pending := l.pending[k + 1..])
  }

  function HostToggle(l: Line): Line { l.(host := !l.host) }

  function FirmwareToggle(l: Line): Line { l.(netx := !l.netx) }

  /** Whenever an older copy says it is the host's turn, so do all newer ones and the real cell. */
  ghost predicate Safe(l: Line, command: bool) {
    && (Turn(l, l.cached, command) ==>
          Turn(l, l.netx, command) && forall j | 0 <= j < |l.pending| :: Turn(l, l.pending[j], command))
    && (forall i, j | 0 <= i <= j < |l.pending| && Turn(l, l.pending[i], command) ::
          Turn(l, l.pending[j], command) && Turn(l, l.netx, command))
  }

  lemma SampleSafe(l: Line, command: bool)
    requires Safe(l, command)
    ensures Safe(Sample(l), command)
  {
    var t := Sample(l);
    forall i, j | 0 <= i <= j < |t.pending| && Turn(t, t.pending[i], command)
      ensures Turn(t, t.pending[j], command) && Turn(t, t.netx, command)
    {
      if i < |l.pending| { assert Turn(l, l.pending[i], command); }
    }
  }

  lemma DeliverSafe(l: Line, k: nat, command: bool)
    requires Safe(l, command) && k < |l.pending|
    ensures Safe(Deliver(l, k), command)
  {
    var t := Deliver(l, k);
    forall i, j | 0 <= i <= j < |t.pending| && Turn(t, t.pending[i], command)
      ensures Turn(t, t.pending[j], command) && Turn(t, t.netx, command)
    {
      assert t.pending[i] == l.pending[k + 1 + i] && t.pending[j] == l.pending[k + 1 + j];
    }
  }

  /** The firmware toggles only when it is not the host's turn: that overtakes no copy. */
  lemma FirmwareToggleSafe(l: Line, command: bool)
    requires Safe(l, command) && FirmwareMay(l, command)
    ensures Safe(FirmwareToggle(l), command)
  {
  }

  /** The host toggles on its turn: that turns every copy against it. */
  lemma HostToggleSafe(l: Line, command: bool)
    requires Safe(l, command) && HostMay(l, command)
    ensures Safe(HostToggle(l), command)
    ensures forall i | 0 <= i < |l.pending| :: !Turn(HostToggle(l), l.pending[i], command)
    ensures !HostMay(HostToggle(l), command) && FirmwareMay(HostToggle(l), command)
  {
    var t := HostToggle(l);
    forall i | 0 <= i < |l.pending| ensures !Turn(t, l.pending[i], command) {
      assert Turn(l, l.pending[i], command);
    }
  }
}
