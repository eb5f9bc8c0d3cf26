/** What a security sensor is answered to be, stated on the run of sensor events since the last reset. */
module SensorMeaning {
  import opened Common
  import opened Sensors

  // ----- The known addresses -----

  /** The addresses that have an entry: each new one until there are 511. */
  function Known(steps: seq<Step>): (addrs: set<nat>)
    ensures |addrs| <= 511
    decreases |steps|
  {
    if steps == [] then {}
    else
      var before := Known(steps[..|steps| - 1]);
      match steps[|steps| - 1]
      case Heard(addr, _, _, _) => if |before| < 511 then before + {addr} else before
      case Shown => before
      case Cleared => {}
  }

  /** Event i gives the address its entry, which lasts to the end. */
  ghost predicate Entered(steps: seq<Step>, i: nat, addr: nat)
    requires i < |steps|
  {
    && steps[i].Heard? && steps[i].addr == addr
    && addr !in Known(steps[..i]) && |Known(steps[..i])| < 511
    && forall j :: i < j < |steps| ==> steps[j] != Cleared
  }

  /** Event i is the last one of the address since the last reset. */
  ghost predicate LastHeard(steps: seq<Step>, i: nat, addr: nat)
    requires i < |steps|
  {
    && steps[i].Heard? && steps[i].addr == addr
    && forall j :: i < j < |steps| ==> steps[j] != Cleared && !(steps[j].Heard? && steps[j].addr == addr)
  }

  lemma {:induction false} KnownIsMap(steps: seq<Step>)
    ensures Known(steps) == MapAfter(steps).Keys
    decreases |steps|
  {
    if steps != [] { KnownIsMap(steps[..|steps| - 1]); }
  }

  lemma EnteredStep(steps: seq<Step>, i: nat, addr: nat)
    requires i < |steps| - 1
    ensures Entered(steps, i, addr) <==>
      Entered(steps[..|steps| - 1], i, addr) && steps[|steps| - 1] != Cleared
  {
    var before := steps[..|steps| - 1];
    assert before[..i] == steps[..i];
    assert forall j :: 0 <= j < |before| ==> before[j] == steps[j];
  }

  lemma LastHeardStep(steps: seq<Step>, i: nat, addr: nat)
    requires i < |steps| - 1
    ensures var e := steps[|steps| - 1];
      LastHeard(steps, i, addr) <==>
        LastHeard(steps[..|steps| - 1], i, addr) && e != Cleared && !(e.Heard? && e.addr == addr)
  {
    var before := steps[..|steps| - 1];
    assert forall j :: 0 <= j < |before| ==> before[j] == steps[j];
  }

  /** A known address has an event that gave it its entry and a last event; its entry has the kind of the one and the key
      of the other. */
  lemma {:induction false} EntryMeaning(steps: seq<Step>, addr: nat) returns (i: nat, j: nat)
    requires addr in Known(steps)
    ensures i <= j < |steps| && Entered(steps, i, addr) && LastHeard(steps, j, addr)
    ensures addr in MapAfter(steps)
    ensures MapAfter(steps)[addr].addr8 == steps[i].addr8 && MapAfter(steps)[addr].status == steps[j].status
    decreases |steps|
  {
    hide Entered, LastHeard;
    var n := |steps| - 1;
    var before, e := steps[..n], steps[n];
    KnownIsMap(before);
    if e.Heard? && e.addr == addr {
      j := n;
      LastIsLast(steps, addr);
      if addr in Known(before) {
        var k: nat;
        i, k := EntryMeaning(before, addr);
        EnteredStep(steps, i, addr);
      } else {
        i := n;
        LastEnters(steps, addr);
      }
    } else {
      i, j := EntryMeaning(before, addr);
      EnteredStep(steps, i, addr);
      LastHeardStep(steps, j, addr);
    }
  }

  lemma LastIsLast(steps: seq<Step>, addr: nat)
    requires steps != [] && steps[|steps| - 1].Heard? && steps[|steps| - 1].addr == addr
    ensures LastHeard(steps, |steps| - 1, addr)
  {}

  lemma LastEnters(steps: seq<Step>, addr: nat)
    requires steps != [] && steps[|steps| - 1].Heard? && steps[|steps| - 1].addr == addr
    requires addr !in Known(steps[..|steps| - 1]) && |Known(steps[..|steps| - 1])| < 511
    ensures Entered(steps, |steps| - 1, addr)
  {}

  /** Two events cannot both have given the address the entry that lasts, nor both be the last. */
  lemma EntryUnique(steps: seq<Step>, i: nat, j: nat, addr: nat)
    requires i < |steps| && j < |steps| && Entered(steps, i, addr) && Entered(steps, j, addr)
    ensures i == j
  {
    if i < j { StaysKnown(steps, i, j, addr); }
    if j < i { StaysKnown(steps, j, i, addr); }
  }

  lemma {:induction false} StaysKnown(steps: seq<Step>, i: nat, j: nat, addr: nat)
    requires i < j <= |steps| && Entered(steps, i, addr)
    ensures addr in Known(steps[..j])
  {
    assert steps[..j][..j - 1] == steps[..j - 1];
    if i < j - 1 {
      StaysKnown(steps, i, j - 1, addr);
    }
  }

  lemma EnteredIsKnown(steps: seq<Step>, i: nat, addr: nat)
    requires i < |steps| && Entered(steps, i, addr)
    ensures addr in Known(steps)
  {
    StaysKnown(steps, i, |steps|, addr);
    assert steps[..|steps|] == steps;
  }

  // ----- The answer -----

  /** The key of an alerting sensor: bit 7 is clear, and the other bits are those of a motion or contact key, of which only
      04 counts for an 8-bit address. */
  predicate AlertKey(rf8: bool, key: byte) {
    key & 0x80 == 0 && (key & 0x7F in (if rf8 then {0x04} else {0x00, 0x01, 0x04, 0x05, 0x0C, 0x0D}))
  }

  /** The address was first heard as an address of this kind, and its last event carries the key of an alert. */
  ghost predicate Alerts(steps: seq<Step>, rf8: bool, addr: nat) {
    exists i, j :: 0 <= i <= j < |steps| && Entered(steps, i, addr) && steps[i].addr8 == rf8
                   && LastHeard(steps, j, addr) && AlertKey(rf8, steps[j].status)
  }

  lemma AlertVerdict(rf8: bool, key: byte)
    ensures Verdict(rf8, key) == 1 <==> AlertKey(rf8, key)
  {
    LowSeven(key);
  }

  lemma LowSeven(key: byte)
    ensures key & 0x80 == 0 ==> key & 0x7F == key
    ensures key & 0x80 != 0 ==> key >= 0x80
    ensures key < 0x80 ==> key & 0x80 == 0
  {}

  lemma LastUnique(steps: seq<Step>, i: nat, j: nat, addr: nat)
    requires i < |steps| && j < |steps| && LastHeard(steps, i, addr) && LastHeard(steps, j, addr)
    ensures i == j
  {}

  /** The answer is "alert" exactly then, in every run. */
  lemma AnswersAlerts(steps: seq<Step>, rf8: bool, addr: nat)
    ensures MapStatus(MapAfter(steps), rf8, addr) == 1 <==> Alerts(steps, rf8, addr)
  {
    hide AlertKey, Verdict, MapAfter, Known;
    KnownIsMap(steps);
    if addr in Known(steps) {
      var i, j := EntryMeaning(steps, addr);
      AlertVerdict(rf8, steps[j].status);
      if Alerts(steps, rf8, addr) {
        var k, l :| 0 <= k <= l < |steps| && Entered(steps, k, addr) && steps[k].addr8 == rf8
                    && LastHeard(steps, l, addr) && AlertKey(rf8, steps[l].status);
        EntryUnique(steps, i, k, addr);
        LastUnique(steps, j, l, addr);
      }
    } else {
      forall k | 0 <= k < |steps| && Entered(steps, k, addr)
        ensures false
      {
        EnteredIsKnown(steps, k, addr);
      }
    }
  }

  // ----- One more event -----

  /** An event of the address leaves it with an entry of this kind: it has one, or it is new, of this kind, and there is
      room. */
  ghost predicate EntersAs(steps: seq<Step>, addr: nat, heard8: bool, rf8: bool) {
    || (addr !in Known(steps) && |Known(steps)| < 511 && heard8 == rf8)
    || exists i :: 0 <= i < |steps| && Entered(steps, i, addr) && steps[i].addr8 == rf8
  }

  lemma EventEnters(steps: seq<Step>, e: Step, rf8: bool) returns (i: nat)
    requires e.Heard? && EntersAs(steps, e.addr, e.addr8, rf8)
    ensures i <= |steps| && Entered(steps + [e], i, e.addr) && (steps + [e])[i].addr8 == rf8
  {
    var all := steps + [e];
    assert all[..|steps|] == steps;
    if k: nat :| k < |steps| && Entered(steps, k, e.addr) && steps[k].addr8 == rf8 {
      i := k;
      EnteredStep(all, i, e.addr);
    } else {
      i := |steps|;
    }
  }

  /** After one more event of the address, it alerts iff the event carries the key of an alert. */
  lemma EventAlerts(steps: seq<Step>, e: Step, rf8: bool)
    requires e.Heard? && EntersAs(steps, e.addr, e.addr8, rf8)
    ensures Alerts(steps + [e], rf8, e.addr) <==> AlertKey(rf8, e.status)
  {
    hide AlertKey, Known;
    var all, n := steps + [e], |steps|;
    var i := EventEnters(steps, e, rf8);
    LastIsLast(all, e.addr);
    if AlertKey(rf8, e.status) {
      assert LastHeard(all, n, e.addr);
    } else {
      forall l | 0 <= l <= n && LastHeard(all, l, e.addr)
        ensures l == n
      {
        LastUnique(all, l, n, e.addr);
      }
    }
  }
}
