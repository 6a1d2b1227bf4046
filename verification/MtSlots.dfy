/** host/src/mt_slots.cpp: the full set of contacts mapped to kernel multi-touch slots. */
module TouchSlots {
  import opened Bytes

  datatype Contact = Contact(id: byte, x: u16, y: u16, pressure: u16)
  datatype Assign = Assign(slot: nat, c: Contact, isNew: bool)
  datatype SlotUpdate = SlotUpdate(active: seq<Assign>, lifted: seq<nat>)

  type Slots = map<byte, nat>

  function Ids(cs: seq<Contact>): set<byte> {
    set c | c in cs :: c.id
  }

  /** Distinct ids sit in distinct slots below the budget. */
  ghost predicate WellPlaced(m: Slots, max: nat) {
    && (forall id :: id in m ==> m[id] < max)
    && (forall a, b :: a in m && b in m && m[a] == m[b] ==> a == b)
  }

  // ----- What an update comes to -------------------------------------------

  function Kept(m: Slots, now: set<byte>): Slots {
    map id | id in m && id in now :: m[id]
  }

  /** Slots of vanished ids, in increasing order of id from `from` on. */
  function Lifted(m: Slots, now: set<byte>, from: nat): seq<nat>
    decreases 0x100 - from
  {
    if from >= 0x100 then []
    else (if from in m && from !in now then [m[from]] else []) + Lifted(m, now, from + 1)
  }

  /** The lowest slot from s on that is not in use. */
  function FreeSlot(used: set<nat>, max: nat, s: nat): (r: Option<nat>)
    ensures r.Some? ==> s <= r.value < max && r.value !in used && forall t :: s <= t < r.value ==> t in used
    ensures r.None? ==> forall t :: s <= t < max ==> t in used
    decreases max - s
  {
    if s >= max then None else if s !in used then Some(s) else FreeSlot(used, max, s + 1)
  }

  function PlaceOne(m: Slots, max: nat, c: Contact): (Slots, seq<Assign>) {
    if c.id in m then (m, [Assign(m[c.id], c, false)])
    else
      match FreeSlot(m.Values, max, 0)
      case None => (m, [])
      case Some(s) => (m[c.id := s], [Assign(s, c, true)])
  }

  function Place(m: Slots, max: nat, cs: seq<Contact>): (Slots, seq<Assign>)
    decreases |cs|
  {
    if cs == [] then (m, [])
    else
      var one := PlaceOne(m, max, cs[0]);
      var rest := Place(one.0, max, cs[1..]);
      (rest.0, one.1 + rest.1)
  }

  // ----- The class ---------------------------------------------------------

  class MtSlots {
    const maxSlots: nat
    var idSlot: Slots

    ghost predicate Valid()
      reads this
    {
      WellPlaced(idSlot, maxSlots)
    }

    constructor (maxSlots: nat)
      ensures Valid() && this.maxSlots == maxSlots && idSlot == map[]
    {
      this.maxSlots := maxSlots;
      idSlot := map[];
    }

    method Update(contacts: seq<Contact>) returns (u: SlotUpdate)
      requires Valid()
      modifies this
      ensures Valid()
      ensures u.lifted == Lifted(old(idSlot), Ids(contacts), 0)
      ensures (idSlot, u.active) == Place(Kept(old(idSlot), Ids(contacts)), maxSlots, contacts)
    {
      var now := {};
      for i := 0 to |contacts|
        invariant now == Ids(contacts[..i])
      {
        assert contacts[..i + 1] == contacts[..i] + [contacts[i]];
        now := now + {contacts[i].id};
      }
      assert contacts[..|contacts|] == contacts;
      var lifted := ReleaseVanished(now);
      KeptIsPlaced(old(idSlot), now, maxSlots);
      var active := AssignAll(contacts);
      u := SlotUpdate(active, lifted);
    }

    method ReleaseVanished(now: set<byte>) returns (lifted: seq<nat>)
      modifies this
      ensures lifted == Lifted(old(idSlot), now, 0) && idSlot == Kept(old(idSlot), now)
    {
      hide Releasing, Lifted;
      lifted := [];
      var id: nat := 0;
      ReleasingStarts(idSlot, now);
      while id < 0x100
        invariant id <= 0x100
        invariant lifted + Lifted(old(idSlot), now, id) == Lifted(old(idSlot), now, 0)
        invariant idSlot == Releasing(old(idSlot), now, id)
      {
        ReleasingStep(old(idSlot), now, id, lifted);
        if id in idSlot && id !in now {
          lifted := lifted + [idSlot[id]];
          idSlot := idSlot - {id};
        }
        id := id + 1;
      }
      ReleasingEnds(old(idSlot), now, lifted);
    }

    method FirstFree(used: set<nat>) returns (s: Option<nat>)
      ensures s == FreeSlot(used, maxSlots, 0)
    {
      var t := 0;
      while t < maxSlots && t in used
        invariant t <= maxSlots && FreeSlot(used, maxSlots, t) == FreeSlot(used, maxSlots, 0)
      {
        t := t + 1;
      }
      return if t < maxSlots then Some(t) else None;
    }

    method UsedSlots() returns (used: set<nat>)
      ensures used == idSlot.Values
    {
      used := {};
      var id: nat := 0;
      while id < 0x100
        invariant id <= 0x100 && used == set k | k in idSlot && k < id :: idSlot[k]
      {
        if id in idSlot { used := used + {idSlot[id]}; }
        id := id + 1;
      }
      assert used == idSlot.Values;
    }

    method AssignAll(contacts: seq<Contact>) returns (active: seq<Assign>)
      requires Valid()
      modifies this
      ensures Valid() && (idSlot, active) == Place(old(idSlot), maxSlots, contacts)
    {
      hide Place;
      var used := UsedSlots();
      active := [];
      PlaceStarts(idSlot, maxSlots, contacts);
      for i := 0 to |contacts|
        invariant Valid() && used == idSlot.Values
        invariant Place(old(idSlot), maxSlots, contacts) ==
                  Joined(active, Place(idSlot, maxSlots, contacts[i..]))
      {
        var c := contacts[i];
        PlaceOneIsPlaced(idSlot, maxSlots, c);
        PlaceStep(idSlot, maxSlots, contacts, i, active);
        if c.id in idSlot {
          active := active + [Assign(idSlot[c.id], c, false)];
        } else {
          var s := FirstFree(used);
          if s.Some? {
            idSlot := idSlot[c.id := s.value];
            used := used + {s.value};
            active := active + [Assign(s.value, c, true)];
          } else {
            assert active + [] == active;
          }
        }
      }
      PlaceEnds(idSlot, maxSlots, contacts, active);
    }
  }

  function Releasing(m: Slots, now: set<byte>, id: nat): Slots {
    map k | k in m && (k in now || k >= id) :: m[k]
  }

  lemma ReleasingStarts(m: Slots, now: set<byte>)
    ensures Releasing(m, now, 0) == m
    ensures [] + Lifted(m, now, 0) == Lifted(m, now, 0)
  {
    hide Lifted;
  }

  lemma ReleasingStep(m: Slots, now: set<byte>, id: nat, lifted: seq<nat>)
    requires id < 0x100
    ensures var r := Releasing(m, now, id); var next := Releasing(m, now, id + 1);
            if id in r && id !in now
            then next == r - {id} && lifted + Lifted(m, now, id) == lifted + [r[id]] + Lifted(m, now, id + 1)
            else next == r && lifted + Lifted(m, now, id) == lifted + Lifted(m, now, id + 1)
  {
    if id in m && id !in now {
      assert Releasing(m, now, id + 1) == Releasing(m, now, id) - {id};
      assert Lifted(m, now, id) == [m[id]] + Lifted(m, now, id + 1);
    } else {
      assert Releasing(m, now, id + 1) == Releasing(m, now, id);
      assert Lifted(m, now, id) == [] + Lifted(m, now, id + 1) == Lifted(m, now, id + 1);
    }
  }

  lemma ReleasingEnds(m: Slots, now: set<byte>, lifted: seq<nat>)
    ensures Releasing(m, now, 0x100) == Kept(m, now)
    ensures lifted + Lifted(m, now, 0x100) == lifted
  {
  }

  function Joined(active: seq<Assign>, rest: (Slots, seq<Assign>)): (Slots, seq<Assign>) {
    (rest.0, active + rest.1)
  }

  lemma PlaceStarts(m: Slots, max: nat, cs: seq<Contact>)
    ensures Place(m, max, cs) == Joined([], Place(m, max, cs[0..]))
  {
    hide Place;
    assert cs[0..] == cs;
    assert [] + Place(m, max, cs).1 == Place(m, max, cs).1;
  }

  lemma PlaceStep(m: Slots, max: nat, cs: seq<Contact>, i: nat, active: seq<Assign>)
    requires i < |cs|
    ensures var one := PlaceOne(m, max, cs[i]);
            Joined(active, Place(m, max, cs[i..])) == Joined(active + one.1, Place(one.0, max, cs[i + 1..]))
  {
    var one := PlaceOne(m, max, cs[i]);
    assert cs[i..][1..] == cs[i + 1..];
    Assoc(active, one.1, Place(one.0, max, cs[i + 1..]).1);
  }

  lemma PlaceEnds(m: Slots, max: nat, cs: seq<Contact>, active: seq<Assign>)
    ensures Joined(active, Place(m, max, cs[|cs|..])) == (m, active)
  {
    assert active + [] == active;
  }

  lemma KeptIsPlaced(m: Slots, now: set<byte>, max: nat)
    requires WellPlaced(m, max)
    ensures WellPlaced(Kept(m, now), max)
  {
  }

  lemma PlaceOneIsPlaced(m: Slots, max: nat, c: Contact)
    requires WellPlaced(m, max)
    ensures WellPlaced(PlaceOne(m, max, c).0, max)
    ensures var m' := PlaceOne(m, max, c).0;
            m' != m ==> m'.Values == m.Values + {m'[c.id]}
  {
    var m' := PlaceOne(m, max, c).0;
    if c.id !in m && FreeSlot(m.Values, max, 0).Some? {
      var s := FreeSlot(m.Values, max, 0).value;
      forall id | id in m
        ensures m[id] != s && m[id] in m.Values
      {
        assert m[id] in m.Values;
      }
      assert forall v :: v in m'.Values ==> v == s || v in m.Values;
      assert forall id :: id in m ==> m'[id] == m[id];
    }
  }

  // ----- Which contacts get a slot -----------------------------------------

  function Range(n: nat): (r: set<nat>)
    ensures |r| == n && forall s: nat :: s in r <==> s < n
  {
    if n == 0 then {} else Range(n - 1) + {n - 1}
  }

  lemma SubsetSize<T>(a: set<T>, b: set<T>)
    requires a <= b
    ensures |a| <= |b| && (|a| == |b| ==> a == b)
  {
    assert b == a + (b - a);
  }

  /** Distinct ids in distinct slots: as many slots as ids. */
  lemma {:induction false} SlotsPerId(m: Slots, max: nat)
    requires WellPlaced(m, max)
    ensures |m.Values| == |m|
    decreases |m|
  {
    if m != map[] {
      var id :| id in m;
      var rest := m - {id};
      SlotsPerId(rest, max);
      forall v | v in m.Values
        ensures v == m[id] || v in rest.Values
      {
        var k :| k in m && m[k] == v;
        if k != id { assert rest[k] == v; }
      }
      assert m[id] in m.Values && m[id] !in rest.Values;
      assert m.Values == rest.Values + {m[id]};
      assert rest.Keys == m.Keys - {id};
    } else {
      assert m.Values == {};
    }
  }

  lemma WithinBudget(m: Slots, max: nat)
    requires WellPlaced(m, max)
    ensures |m| <= max
    ensures (forall s: nat :: s < max ==> s in m.Values) ==> |m| == max
  {
    SlotsPerId(m, max);
    SubsetSize(m.Values, Range(max));
    if forall s: nat :: s < max ==> s in m.Values {
      SubsetSize(Range(max), m.Values);
    }
  }

  /** Placing contacts never moves an id that already has a slot, gives slots only to ids of
      the contacts, and passes one over only when every slot is taken. */
  lemma {:induction false} PlaceKeeps(m: Slots, max: nat, cs: seq<Contact>)
    requires WellPlaced(m, max)
    ensures var r := Place(m, max, cs).0;
            && WellPlaced(r, max)
            && (forall id :: id in m ==> id in r && r[id] == m[id])
            && (forall id :: id in r ==> id in m || id in Ids(cs))
            && (forall c :: c in cs ==> c.id in r || |r| == max)
    decreases |cs|
  {
    if cs != [] {
      hide PlaceOne, WellPlaced;
      var one := PlaceOne(m, max, cs[0]).0;
      PlaceOneIsPlaced(m, max, cs[0]);
      PlaceOneKeeps(m, max, cs[0]);
      PlaceKeeps(one, max, cs[1..]);
      var r := Place(m, max, cs).0;
      assert cs == [cs[0]] + cs[1..];
      if cs[0].id !in one {
        WithinBudget(one, max);
        WithinBudget(r, max);
        SubsetSize(one.Keys, r.Keys);
      }
    }
  }

  lemma PlaceOneKeeps(m: Slots, max: nat, c: Contact)
    requires WellPlaced(m, max)
    ensures var one := PlaceOne(m, max, c).0;
            && (forall id :: id in m ==> id in one && one[id] == m[id])
            && (forall id :: id in one ==> id in m || id == c.id)
            && (c.id !in one ==> |one| == max)
  {
    hide FreeSlot;
    if c.id !in m {
      match FreeSlot(m.Values, max, 0) {
        case None =>
          assert forall s: nat :: s < max ==> s in m.Values;
          WithinBudget(m, max);
        case Some(s) =>
          assert PlaceOne(m, max, c).0 == m[c.id := s];
      }
    }
  }

  /** Pigeonhole: the number of contacts held is the number of distinct ids, up to the budget;
      so nothing is dropped unless more ids are down than there are slots. */
  lemma HeldContacts(before: Slots, max: nat, cs: seq<Contact>)
    requires WellPlaced(before, max)
    ensures var now := Place(Kept(before, Ids(cs)), max, cs).0;
            && now.Keys <= Ids(cs)
            && |now| == (if |Ids(cs)| <= max then |Ids(cs)| else max)
            && (|Ids(cs)| <= max ==> now.Keys == Ids(cs))
            && (forall id :: id in before && id in Ids(cs) ==> id in now && now[id] == before[id])
  {
    var kept := Kept(before, Ids(cs));
    KeptIsPlaced(before, Ids(cs), max);
    PlaceKeeps(kept, max, cs);
    var now := Place(kept, max, cs).0;
    WithinBudget(now, max);
    SubsetSize(now.Keys, Ids(cs));
    if now.Keys != Ids(cs) {
      var id :| id in Ids(cs) && id !in now;
      var c :| c in cs && c.id == id;
    }
  }
}
