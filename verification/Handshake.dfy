/**
Handshake cell 0 of the dual-ported memory.  Host and netX each own one 16-bit half; a channel is a
bit position, and its two halves are compared: equal or unequal says whose turn it is.

A command bit belongs to the host while equal and to the firmware while unequal; an indication bit
the other way round.  The host never sees the netX half directly: it acts on a cached copy that an
interrupt sampled some time ago.
*/
module Handshake {
  /** The bit positions that are set in one half of the cell. */
  type Flags = set<nat>

  const NEWDATA := 0
  const NEWSTATUS := 1
  const STARTSTOP := 2
  const DRV_ERROR := 5
  const BLINK := 6
  const RECV_MBX := 10
  const CLKOFF := 15

  predicate Unequal(netx: Flags, host: Flags, bit: nat) {
    (bit in netx) != (bit in host)
  }

  function Toggle(flags: Flags, bit: nat): Flags {
    if bit in flags then flags - {bit} else flags + {bit}
  }

  /** The exclusive or of two halves. */
  function Xor(a: Flags, b: Flags): Flags {
    (a - b) + (b - a)
  }

  predicate IsIndication(bit: nat) {
    bit == NEWDATA || bit == NEWSTATUS || bit == RECV_MBX
  }

  /** BLINK and CLKOFF are toggled without looking at their state. */
  predicate IsGuarded(bit: nat) {
    bit != BLINK && bit != CLKOFF
  }

  /** With these two halves, channel `bit` is the host's to act on. */
  predicate HostTurn(netx: Flags, host: Flags, bit: nat) {
    Unequal(netx, host, bit) <==> IsIndication(bit)
  }

  /** Whatever an older copy of the netX half lets the host do, a newer one lets it do too. */
  ghost predicate Leads(older: Flags, newer: Flags, host: Flags) {
    forall bit | IsGuarded(bit) && HostTurn(older, host, bit) :: HostTurn(newer, host, bit)
  }

  /** The firmware toggles a guarded bit only when it is not the host's turn: no copy is overtaken. */
  lemma FirmwareToggleLeads(older: Flags, netx: Flags, host: Flags, bit: nat)
    requires Leads(older, netx, host)
    requires IsGuarded(bit) ==> !HostTurn(netx, host, bit)
    ensures Leads(older, Toggle(netx, bit), host)
  {
    forall b | IsGuarded(b) && HostTurn(older, host, b)
      ensures HostTurn(Toggle(netx, bit), host, b)
    {
      assert HostTurn(netx, host, b);
    }
  }

  /** After the host toggles on its turn, no copy grants it the bit any more. */
  lemma HostToggleLeads(older: Flags, newer: Flags, host: Flags, bit: nat)
    requires Leads(older, newer, host)
    requires IsGuarded(bit) ==> HostTurn(older, host, bit)
    ensures Leads(older, newer, Toggle(host, bit))
  {
    forall b | IsGuarded(b) && HostTurn(older, Toggle(host, bit), b)
      ensures HostTurn(newer, Toggle(host, bit), b)
    {
      assert b != bit ==> HostTurn(older, host, b) && HostTurn(newer, host, b);
    }
  }
}
