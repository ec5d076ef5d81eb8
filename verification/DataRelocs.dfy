/** The patcher of hex2-data-relocs: parsing into parallel tables over a pool of names, the move of
    the data block inside the binary, and the rewriting of the references. */
module DataRelocs {
  import opened Wrappers
  import opened Arith
  import opened Hex2Text
  import opened Hex2Link
  import opened RelocSpec

  // ---- writing four bytes at a time ------------------------------------------------------------

  datatype Slot = Slot(pos: nat, value: int)

  function Write4(b: seq<Byte>, s: Slot): (r: seq<Byte>)
    requires s.pos + 4 <= |b|
    ensures |r| == |b|
  {
    b[..s.pos] + LittleBytes(s.value, 4) + b[s.pos + 4..]
  }

  predicate InRange(slots: seq<Slot>, size: nat) {
    forall k :: 0 <= k < |slots| ==> slots[k].pos + 4 <= size
  }

  predicate ApartSlots(s: Slot, t: Slot) {
    s.pos + 4 <= t.pos || t.pos + 4 <= s.pos
  }

  predicate AllApart(slots: seq<Slot>) {
    forall i, j :: 0 <= i < j < |slots| ==> ApartSlots(slots[i], slots[j])
  }

  function WriteAll(b: seq<Byte>, slots: seq<Slot>): (r: seq<Byte>)
    requires InRange(slots, |b|)
    ensures |r| == |b|
    decreases |slots|
  {
    if slots == [] then b else WriteAll(Write4(b, slots[0]), slots[1..])
  }

  predicate Covers(s: Slot, k: int) {
    s.pos <= k < s.pos + 4
  }

  lemma {:induction false} WriteAllOthers(b: seq<Byte>, slots: seq<Slot>, k: nat)
    requires InRange(slots, |b|) && k < |b| && forall i :: 0 <= i < |slots| ==> !Covers(slots[i], k)
    ensures WriteAll(b, slots)[k] == b[k]
    decreases |slots|
  {
    if slots != [] {
      WriteAllOthers(Write4(b, slots[0]), slots[1..], k);
    }
  }

  /** Slots that do not overlap keep what is written into them. */
  lemma {:induction false} WriteAllHolds(b: seq<Byte>, slots: seq<Slot>, i: nat)
    requires InRange(slots, |b|) && AllApart(slots) && i < |slots|
    ensures WriteAll(b, slots)[slots[i].pos..slots[i].pos + 4] == LittleBytes(slots[i].value, 4)
    decreases |slots|
  {
    hide LittleBytes;
    var b1 := Write4(b, slots[0]);
    if i == 0 {
      var p := slots[0].pos;
      var r := WriteAll(b, slots);
      assert b1[p..p + 4] == LittleBytes(slots[0].value, 4);
      forall k | p <= k < p + 4
        ensures r[k] == b1[k]
      {
        forall j | 0 <= j < |slots[1..]|
          ensures !Covers(slots[1..][j], k)
        {
          assert ApartSlots(slots[0], slots[j + 1]);
        }
        WriteAllOthers(b1, slots[1..], k);
      }
      assert r[p..p + 4] == b1[p..p + 4];
    } else {
      forall i, j | 0 <= i < j < |slots[1..]|
        ensures ApartSlots(slots[1..][i], slots[1..][j])
      {
        assert ApartSlots(slots[i + 1], slots[j + 1]);
      }
      WriteAllHolds(b1, slots[1..], i - 1);
    }
  }

  // ---- what is to be written ---------------------------------------------------------------------

  /** References of code and data to data that moves: the displacement from the end of the field. */
  function RelSlots(t: Tables, rels: seq<Named>): seq<Slot>
    requires t.data >= 0
  {
    if rels == [] then []
    else
      var r := rels[0];
      var target := Lookup(t.labels, r.name);
      (if target >= t.data then [Slot(ENTRY_OFFSET + r.at, NewAddress(target, t.data) - (BASE + ENTRY_OFFSET + r.at + 4))] else [])
      + RelSlots(t, rels[1..])
  }

  function AbsSlots(t: Tables, abss: seq<Named>): seq<Slot>
    requires t.data >= 0
  {
    if abss == [] then []
    else
      var r := abss[0];
      var target := Lookup(t.labels, r.name);
      (if target >= 0 then [Slot(NewPosition(r.at, t.data), NewAddress(target, t.data))] else []) + AbsSlots(t, abss[1..])
  }

  function Slots(t: Tables): seq<Slot>
    requires t.data >= 0
  {
    RelSlots(t, t.rels) + AbsSlots(t, t.abss)
  }

  /** The file with the data block moved; the ranges may overlap. */
  function Moved(b: seq<Byte>, from: nat, n: nat): (r: seq<Byte>)
    requires from <= DATA_FILE_OFFSET && DATA_FILE_OFFSET + n <= |b| && from + n <= |b|
    ensures |r| == |b|
  {
    b[..DATA_FILE_OFFSET] + b[from..from + n] + b[DATA_FILE_OFFSET + n..]
  }

  /** A displacement to something that moves is only used in the code, which ends where the data
      segment's part of the file begins or before. */
  predicate Movable(t: Tables) {
    && t.data >= 0 && ENTRY_OFFSET + t.data <= DATA_FILE_OFFSET
    && forall i :: 0 <= i < |t.rels| && Lookup(t.labels, t.rels[i].name) >= t.data ==> t.rels[i].at < t.data
  }

  lemma {:induction false} RelSlotIs(t: Tables, rels: seq<Named>, k: nat) returns (i: nat)
    requires t.data >= 0 && k < |RelSlots(t, rels)|
    ensures i < |rels| && Lookup(t.labels, rels[i].name) >= t.data
    ensures RelSlots(t, rels)[k] == Slot(ENTRY_OFFSET + rels[i].at, NewAddress(Lookup(t.labels, rels[i].name), t.data) - (BASE + ENTRY_OFFSET + rels[i].at + 4))
    decreases |rels|
  {
    var first := if Lookup(t.labels, rels[0].name) >= t.data then 1 else 0;
    if k < first {
      i := 0;
    } else {
      i := RelSlotIs(t, rels[1..], k - first);
      i := i + 1;
    }
  }

  lemma {:induction false} AbsSlotIs(t: Tables, abss: seq<Named>, k: nat) returns (i: nat)
    requires t.data >= 0 && k < |AbsSlots(t, abss)|
    ensures i < |abss| && Lookup(t.labels, abss[i].name) >= 0
    ensures AbsSlots(t, abss)[k] == Slot(NewPosition(abss[i].at, t.data), NewAddress(Lookup(t.labels, abss[i].name), t.data))
    decreases |abss|
  {
    var first := if Lookup(t.labels, abss[0].name) >= 0 then 1 else 0;
    if k < first {
      i := 0;
    } else {
      i := AbsSlotIs(t, abss[1..], k - first);
      i := i + 1;
    }
  }

  lemma {:induction false} RelSlotOf(t: Tables, rels: seq<Named>, i: nat) returns (k: nat)
    requires t.data >= 0 && i < |rels| && Lookup(t.labels, rels[i].name) >= t.data
    ensures k < |RelSlots(t, rels)|
    ensures RelSlots(t, rels)[k] == Slot(ENTRY_OFFSET + rels[i].at, NewAddress(Lookup(t.labels, rels[i].name), t.data) - (BASE + ENTRY_OFFSET + rels[i].at + 4))
    decreases |rels|
  {
    if i == 0 {
      k := 0;
    } else {
      k := RelSlotOf(t, rels[1..], i - 1);
      k := k + if Lookup(t.labels, rels[0].name) >= t.data then 1 else 0;
    }
  }

  lemma {:induction false} AbsSlotOf(t: Tables, abss: seq<Named>, i: nat) returns (k: nat)
    requires t.data >= 0 && i < |abss| && Lookup(t.labels, abss[i].name) >= 0
    ensures k < |AbsSlots(t, abss)|
    ensures AbsSlots(t, abss)[k] == Slot(NewPosition(abss[i].at, t.data), NewAddress(Lookup(t.labels, abss[i].name), t.data))
    decreases |abss|
  {
    if i == 0 {
      k := 0;
    } else {
      k := AbsSlotOf(t, abss[1..], i - 1);
      k := k + if Lookup(t.labels, abss[0].name) >= 0 then 1 else 0;
    }
  }

  predicate InOrder(refs: seq<Named>, data: int) {
    && (forall i, j :: 0 <= i < j < |refs| ==> Before(refs[i], refs[j]))
    && forall i :: 0 <= i < |refs| ==> OneSide(refs[i], data)
  }

  lemma NewPositionsApart(r: Named, q: Named, data: int)
    requires data >= 0 && ENTRY_OFFSET + data <= DATA_FILE_OFFSET
    requires ApartRefs(r, q) && OneSide(r, data) && OneSide(q, data)
    ensures var a, b := NewPosition(r.at, data), NewPosition(q.at, data); a + 4 <= b || b + 4 <= a
  {
  }

  lemma {:induction false} RelSlotsApart(t: Tables, rels: seq<Named>)
    requires t.data >= 0 && InOrder(rels, t.data)
    ensures AllApart(RelSlots(t, rels))
    decreases |rels|
  {
    if rels != [] {
      var more := RelSlots(t, rels[1..]);
      RelSlotsApart(t, rels[1..]);
      forall k | 0 <= k < |more|
        ensures more[k].pos >= ENTRY_OFFSET + rels[0].at + 4
      {
        var i := RelSlotIs(t, rels[1..], k);
        assert Before(rels[0], rels[i + 1]);
      }
    }
  }

  lemma {:induction false} AbsSlotsApart(t: Tables, abss: seq<Named>)
    requires t.data >= 0 && ENTRY_OFFSET + t.data <= DATA_FILE_OFFSET && InOrder(abss, t.data)
    ensures AllApart(AbsSlots(t, abss))
    decreases |abss|
  {
    if abss != [] {
      var more := AbsSlots(t, abss[1..]);
      AbsSlotsApart(t, abss[1..]);
      forall k | 0 <= k < |more|
        ensures var p := NewPosition(abss[0].at, t.data); p + 4 <= more[k].pos || more[k].pos + 4 <= p
      {
        var i := AbsSlotIs(t, abss[1..], k);
        assert Before(abss[0], abss[i + 1]);
        NewPositionsApart(abss[0], abss[i + 1], t.data);
      }
    }
  }

  lemma SlotsApart(t: Tables)
    requires Spaced(t) && Movable(t)
    ensures AllApart(Slots(t))
  {
    var a, b := RelSlots(t, t.rels), AbsSlots(t, t.abss);
    RelSlotsApart(t, t.rels);
    AbsSlotsApart(t, t.abss);
    forall k, l | 0 <= k < |a| && 0 <= l < |b|
      ensures ApartSlots(a[k], b[l])
    {
      var i := RelSlotIs(t, t.rels, k);
      var j := AbsSlotIs(t, t.abss, l);
      assert ApartRefs(t.rels[i], t.abss[j]);
    }
    forall i, j | 0 <= i < j < |Slots(t)|
      ensures ApartSlots(Slots(t)[i], Slots(t)[j])
    {
      if i < |a| && |a| <= j {
        assert ApartSlots(a[i], b[j - |a|]);
      } else if j < |a| {
        assert ApartSlots(a[i], a[j]);
      } else {
        assert ApartSlots(b[i - |a|], b[j - |a|]);
      }
    }
  }

  /** The bytes of the binary: at least what the source describes, and room for the moved block. */
  predicate Fits(t: Tables, size: nat, room: nat) {
    && t.data >= 0 && ENTRY_OFFSET + t.offset <= size <= room
    && DATA_FILE_OFFSET + (size - (ENTRY_OFFSET + t.data)) <= room
  }

  lemma SlotsInRange(t: Tables, size: nat, room: nat)
    requires Spaced(t) && Movable(t) && Fits(t, size, room)
    ensures InRange(Slots(t), room)
  {
    var a, b := RelSlots(t, t.rels), AbsSlots(t, t.abss);
    forall k | 0 <= k < |Slots(t)|
      ensures Slots(t)[k].pos + 4 <= room
    {
      if k < |a| {
        var i := RelSlotIs(t, t.rels, k);
      } else {
        var j := AbsSlotIs(t, t.abss, k - |a|);
      }
    }
  }

  /** The patched binary. */
  function Patched(t: Tables, b: seq<Byte>, size: nat): (r: seq<Byte>)
    requires Spaced(t) && Movable(t) && Fits(t, size, |b|)
    ensures |r| == |b|
  {
    SlotsInRange(t, size, |b|);
    WriteAll(Moved(b, ENTRY_OFFSET + t.data, size - (ENTRY_OFFSET + t.data)), Slots(t))
  }

  function Bytes4(b: seq<Byte>, at: nat): seq<Byte>
    requires at + 4 <= |b|
  {
    b[at..at + 4]
  }

  /** After patching, a reference by displacement in the code to something in the data leads to where
      the loader puts it: the displacement and the address of the end of its field add up to that
      address, as long as it is within 2^31. */
  lemma RelativeReference(t: Tables, b: seq<Byte>, size: nat, i: nat)
    requires Spaced(t) && Movable(t) && Fits(t, size, |b|)
    requires i < |t.rels| && Lookup(t.labels, t.rels[i].name) >= t.data
    ensures var at := ENTRY_OFFSET + t.rels[i].at; var target := Lookup(t.labels, t.rels[i].name);
      && at + 4 <= |b|
      && var disp := SignExtended(Bytes4(Patched(t, b, size), at), false); var v := DATA_VM + (target - t.data) - (BASE + at + 4);
      && disp % Pow256(4) == v % Pow256(4)
      && (-Pow256(4) <= 2 * v < Pow256(4) ==> BASE + at + 4 + disp == DATA_VM + (target - t.data))
  {
    hide LittleBytes, Moved, AllApart, SignExtended, Unsigned, Lookup, ApartSlots, InOrder;
    SlotsApart(t);
    SlotsInRange(t, size, |b|);
    var k := RelSlotOf(t, t.rels, i);
    WriteAllHolds(Moved(b, ENTRY_OFFSET + t.data, size - (ENTRY_OFFSET + t.data)), Slots(t), k);
    var s := Slots(t)[k];
    PointerDecodes(s.value, 4, false);
    SignedResidue(LittleBytes(s.value, 4));
  }

  lemma SignedResidue(b: seq<Byte>)
    ensures SignExtended(b, false) % Pow256(|b|) == Unsigned(b, false)
  {
    var p, v := Pow256(|b|), Unsigned(b, false);
    if 2 * v < p {
      DivModUnique(v, p, 0, v);
    } else {
      DivModUnique(v - p, p, -1, v);
    }
  }

  /** An absolute reference, in the code or in the data that has moved, holds the address of its
      target, wherever that is. */
  lemma AbsoluteReference(t: Tables, b: seq<Byte>, size: nat, j: nat)
    requires Spaced(t) && Movable(t) && Fits(t, size, |b|)
    requires j < |t.abss| && Lookup(t.labels, t.abss[j].name) >= 0
    ensures var at := NewPosition(t.abss[j].at, t.data); var target := Lookup(t.labels, t.abss[j].name);
      && at + 4 <= |b|
      && Unsigned(Bytes4(Patched(t, b, size), at), false) == NewAddress(target, t.data) % Pow256(4)
  {
    SlotsApart(t);
    SlotsInRange(t, size, |b|);
    var k := AbsSlotOf(t, t.abss, j);
    k := |RelSlots(t, t.rels)| + k;
    WriteAllHolds(Moved(b, ENTRY_OFFSET + t.data, size - (ENTRY_OFFSET + t.data)), Slots(t), k);
    PointerDecodes(Slots(t)[k].value, 4, false);
  }

  /** Byte k of the program belongs to a reference that is rewritten. */
  ghost predicate Rewritten(t: Tables, k: int)
  {
    || (exists i :: 0 <= i < |t.rels| && Lookup(t.labels, t.rels[i].name) >= t.data && t.rels[i].at <= k < t.rels[i].at + 4)
    || (exists j :: 0 <= j < |t.abss| && Lookup(t.labels, t.abss[j].name) >= 0 && t.abss[j].at <= k < t.abss[j].at + 4)
  }

  /** Every other byte of the program is at its new position as it was, and so is what lies in front
      of the program. */
  lemma OtherBytes(t: Tables, b: seq<Byte>, size: nat, k: int)
    requires Spaced(t) && Movable(t) && Fits(t, size, |b|)
    requires -ENTRY_OFFSET <= k < size - ENTRY_OFFSET && !Rewritten(t, k)
    ensures 0 <= NewPosition(k, t.data) < |b| && Patched(t, b, size)[NewPosition(k, t.data)] == b[ENTRY_OFFSET + k]
  {
    SlotsInRange(t, size, |b|);
    var at := NewPosition(k, t.data);
    var m := Moved(b, ENTRY_OFFSET + t.data, size - (ENTRY_OFFSET + t.data));
    assert m[at] == b[ENTRY_OFFSET + k];
    forall i | 0 <= i < |Slots(t)|
      ensures !Covers(Slots(t)[i], at)
    {
      if i < |RelSlots(t, t.rels)| {
        var r := RelSlotIs(t, t.rels, i);
        assert t.rels[r].at + 4 <= t.data;
      } else {
        var j := AbsSlotIs(t, t.abss, i - |RelSlots(t, t.rels)|);
        assert OneSide(t.abss[j], t.data);
      }
    }
    WriteAllOthers(m, Slots(t), at);
  }

  // ---- the program ------------------------------------------------------------------------------

  /** An entry of one of the parallel arrays: a name in the pool and an offset. */
  datatype PoolRef = PoolRef(off: nat, len: nat, at: nat)

  predicate InPool(pool: string, refs: seq<PoolRef>) {
    forall k :: 0 <= k < |refs| ==> refs[k].off + refs[k].len <= |pool|
  }

  function Name(pool: string, r: PoolRef): Named
    requires r.off + r.len <= |pool|
  {
    Named(pool[r.off..r.off + r.len], r.at)
  }

  function Names(pool: string, refs: seq<PoolRef>): (v: seq<Named>)
    requires InPool(pool, refs)
    ensures |v| == |refs|
    ensures forall k :: 0 <= k < |v| ==> v[k] == Name(pool, refs[k])
  {
    seq(|refs|, k requires 0 <= k < |refs| => Name(pool, refs[k]))
  }

  /** Adding to the pool changes no name that is in it. */
  lemma PoolGrows(pool: string, more: string, refs: seq<PoolRef>)
    requires InPool(pool, refs)
    ensures InPool(pool + more, refs) && Names(pool + more, refs) == Names(pool, refs)
  {
    forall k | 0 <= k < |refs|
      ensures Name(pool + more, refs[k]) == Name(pool, refs[k])
    {
      var r := refs[k];
      assert (pool + more)[r.off..r.off + r.len] == pool[r.off..r.off + r.len];
    }
  }

  class Relocs {
    var namePool: string
    var labels: seq<PoolRef>
    var relRefs: seq<PoolRef>
    var absRefs: seq<PoolRef>
    var staticOffset: int
    var offset: nat
    var tok: string

    ghost predicate Valid()
      reads this
    {
      InPool(namePool, labels) && InPool(namePool, relRefs) && InPool(namePool, absRefs)
    }

    ghost function View(): Tables
      requires Valid()
      reads this
    {
      Tables(offset, Names(namePool, labels), Names(namePool, relRefs), Names(namePool, absRefs), staticOffset)
    }

    constructor ()
      ensures Valid() && View() == EMPTY && tok == ""
    {
      namePool, labels, relRefs, absRefs, staticOffset, offset, tok := "", [], [], [], -1, 0, "";
    }

    method StashName(s: string) returns (off: nat)
      requires Valid()
      modifies this`namePool
      ensures Valid() && View() == old(View()) && off + |s| <= |namePool| && namePool[off..off + |s|] == s
    {
      off := |namePool|;
      var i := 0;
      while i < |s|
        invariant i <= |s| && namePool == old(namePool) + s[..i]
      {
        namePool := namePool + [s[i]];
        i := i + 1;
      }
      PoolGrows(old(namePool), s, labels);
      PoolGrows(old(namePool), s, relRefs);
      PoolGrows(old(namePool), s, absRefs);
      assert namePool == old(namePool) + s;
    }

    method HandleToken() returns (ok: bool)
      requires Valid() && tok != ""
      modifies this`namePool, this`labels, this`relRefs, this`absRefs, this`staticOffset, this`offset
      ensures Valid()
      ensures var r := Handle(old(View()), tok); (ok <==> r.Some?) && (ok ==> View() == r.value)
    {
      hide TokenWidth, Numeric;
      ok := true;
      var name := tok[1..];
      if tok[0] == ':' {
        var off := StashName(name);
        ghost var before := Names(namePool, labels);
        labels := labels + [PoolRef(off, |name|, offset)];
        assert Names(namePool, labels) == before + [Named(name, offset)];
        if staticOffset == -1 {
          if name == "ELF_data" || name == "HEX2_data" {
            staticOffset := offset;
          }
        }
      } else if tok[0] == '%' {
        if !Numeric(name) {
          var off := StashName(name);
          ghost var before := Names(namePool, relRefs);
          relRefs := relRefs + [PoolRef(off, |name|, offset)];
          assert Names(namePool, relRefs) == before + [Named(name, offset)];
        }
        offset := offset + 4;
      } else if tok[0] == '&' {
        if !Numeric(name) {
          var off := StashName(name);
          ghost var before := Names(namePool, absRefs);
          absRefs := absRefs + [PoolRef(off, |name|, offset)];
          assert Names(namePool, absRefs) == before + [Named(name, offset)];
        }
        offset := offset + 4;
      } else {
        var width := TokenWidth(tok);
        ok := width != 0;
        offset := offset + width;
      }
    }

    /** The end of a token, if one has begun. */
    method FlushToken() returns (ok: bool)
      requires Valid()
      modifies this
      ensures Valid() && tok == ""
      ensures var r := HandleAll(old(View()), Flush(old(tok))); (ok <==> r.Some?) && (ok ==> View() == r.value)
    {
      ok := true;
      if tok != "" {
        assert [tok][1..] == [];
        ok := HandleToken();
        tok := "";
      }
    }

    method ParseSource(t: string) returns (ok: bool)
      requires Valid() && View() == EMPTY && tok == ""
      modifies this
      ensures Valid()
      ensures (ok <==> Parse(t).Some?) && (ok ==> View() == Parse(t).value)
    {
      hide Handle, IsBlank;
      var c := 0;
      var comment := false;
      ghost var all := Parse(t);
      TokensNotEmpty(t, "", false);
      assert t[0..] == t;
      while c < |t|
        invariant c <= |t| && Valid() && (comment ==> tok == "")
        invariant NoEmpty(Tokens(t[c..], tok, comment)) && all == HandleAll(View(), Tokens(t[c..], tok, comment))
      {
        assert t[c..][0] == t[c] && t[c..][1..] == t[c + 1..];
        ghost var rest := t[c + 1..];
        if comment {
          if t[c] == '\n' { comment := false; }
        } else if t[c] == '#' {
          TokensNotEmpty(rest, "", true);
          HandleAllConcat(View(), Flush(tok), Tokens(rest, "", true));
          ok := FlushToken();
          if !ok { return; }
          comment := true;
        } else if IsBlank(t[c]) {
          TokensNotEmpty(rest, "", false);
          HandleAllConcat(View(), Flush(tok), Tokens(rest, "", false));
          ok := FlushToken();
          if !ok { return; }
        } else {
          TokensNotEmpty(rest, tok + [t[c]], false);
          tok := tok + [t[c]];
        }
        c := c + 1;
      }
      assert t[|t|..] == "";
      ok := FlushToken();
    }

    /** The inner loop of lookup_label. */
    method SameBytes(a: nat, b: nat, n: nat) returns (eq: bool)
      requires a + n <= |namePool| && b + n <= |namePool|
      ensures eq <==> namePool[a..a + n] == namePool[b..b + n]
    {
      ghost var x, y := namePool[a..a + n], namePool[b..b + n];
      eq := true;
      var j := 0;
      while j < n
        invariant j <= n && forall k :: 0 <= k < j ==> x[k] == y[k]
      {
        if namePool[a + j] != namePool[b + j] {
          assert x[j] != y[j];
          eq := false;
          break;
        }
        j := j + 1;
      }
    }

    method LookupLabel(r: PoolRef) returns (at: int)
      requires Valid() && r.off + r.len <= |namePool|
      ensures at == Lookup(Names(namePool, labels), Name(namePool, r).name)
    {
      ghost var all := Names(namePool, labels);
      ghost var name := Name(namePool, r).name;
      var i := 0;
      while i < |labels|
        invariant i <= |labels| && Lookup(all[i..], name) == Lookup(all, name)
      {
        assert all[i..][0] == Name(namePool, labels[i]) && all[i..][1..] == all[i + 1..];
        if labels[i].len == r.len {
          var eq := SameBytes(labels[i].off, r.off, r.len);
          if eq {
            return labels[i].at;
          }
        }
        i := i + 1;
      }
      assert all[|all|..] == [];
      return -1;
    }

    method PackLe32(bytes: array<Byte>, pos: nat, value: int)
      requires pos + 4 <= bytes.Length
      modifies bytes
      ensures bytes[..] == Write4(old(bytes[..]), Slot(pos, value))
    {
      LittleAt(value, 4);
      bytes[pos] := value % 256;
      bytes[pos + 1] := value / 256 % 256;
      bytes[pos + 2] := value / 65536 % 256;
      bytes[pos + 3] := value / 0x100_0000 % 256;
      assert bytes[pos..pos + 4] == LittleBytes(value, 4);
    }

    /** The copy goes backwards: where the ranges overlap every byte is read before it is written. */
    method MoveData(bytes: array<Byte>, from: nat, n: nat)
      requires from <= DATA_FILE_OFFSET && DATA_FILE_OFFSET + n <= bytes.Length && from + n <= bytes.Length
      modifies bytes
      ensures bytes[..] == Moved(old(bytes[..]), from, n)
    {
      var i := n - 1;
      while i >= 0
        invariant -1 <= i < n
        invariant forall k :: DATA_FILE_OFFSET + i < k < DATA_FILE_OFFSET + n ==> bytes[k] == old(bytes[from + (k - DATA_FILE_OFFSET)])
        invariant forall k :: 0 <= k < bytes.Length && !(DATA_FILE_OFFSET + i < k < DATA_FILE_OFFSET + n) ==> bytes[k] == old(bytes[k])
      {
        bytes[DATA_FILE_OFFSET + i] := bytes[from + i];
        i := i - 1;
      }
    }

    method PatchBinary(bytes: array<Byte>, size: nat) returns (total: nat)
      requires Valid() && Spaced(View()) && Movable(View()) && Fits(View(), size, bytes.Length)
      modifies bytes
      ensures bytes[..] == Patched(View(), old(bytes[..]), size)
      ensures total <= bytes.Length
      ensures var end := DATA_FILE_OFFSET + (size - (ENTRY_OFFSET + staticOffset)); total == if end > size then end else size
    {
      hide Spaced, Movable, Lookup, Write4, NewAddress, NewPosition;
      ghost var t := View();
      RangeFacts(t, size, bytes.Length);
      var from := ENTRY_OFFSET + staticOffset;
      var n := size - from;
      total := if size < DATA_FILE_OFFSET + n then DATA_FILE_OFFSET + n else size;
      MoveData(bytes, from, n);
      ghost var slots := Slots(t);
      SlotsInRange(t, size, bytes.Length);
      WriteAllConcat(bytes[..], RelSlots(t, t.rels), AbsSlots(t, t.abss));
      PatchRelative(bytes);
      PatchAbsolute(bytes);
    }

    method PatchRelative(bytes: array<Byte>)
      requires Valid() && staticOffset >= 0 && InRange(RelSlots(View(), View().rels), bytes.Length)
      modifies bytes
      ensures bytes[..] == WriteAll(old(bytes[..]), RelSlots(View(), View().rels))
    {
      hide Lookup, Write4;
      ghost var t := View();
      var i := 0;
      assert t.rels[0..] == t.rels;
      while i < |relRefs|
        invariant i <= |relRefs| && InRange(RelSlots(t, t.rels[i..]), bytes.Length)
        invariant WriteAll(bytes[..], RelSlots(t, t.rels[i..])) == WriteAll(old(bytes[..]), RelSlots(t, t.rels))
      {
        assert t.rels[i..][0] == Name(namePool, relRefs[i]) && t.rels[i..][1..] == t.rels[i + 1..];
        var tgt := LookupLabel(relRefs[i]);
        if tgt >= 0 && tgt >= staticOffset {
          var dispPos := ENTRY_OFFSET + relRefs[i].at;
          var nextInstr := BASE + dispPos + 4;
          var target := DATA_VM + (tgt - staticOffset);
          SlotFirst(Slot(dispPos, target - nextInstr), RelSlots(t, t.rels[i + 1..]), bytes[..]);
          PackLe32(bytes, dispPos, target - nextInstr);
        } else {
          assert [] + RelSlots(t, t.rels[i + 1..]) == RelSlots(t, t.rels[i + 1..]);
        }
        i := i + 1;
      }
      assert t.rels[|t.rels|..] == [];
    }

    method PatchAbsolute(bytes: array<Byte>)
      requires Valid() && staticOffset >= 0 && InRange(AbsSlots(View(), View().abss), bytes.Length)
      modifies bytes
      ensures bytes[..] == WriteAll(old(bytes[..]), AbsSlots(View(), View().abss))
    {
      hide Lookup, Write4;
      ghost var t := View();
      var i := 0;
      assert t.abss[0..] == t.abss;
      while i < |absRefs|
        invariant i <= |absRefs| && InRange(AbsSlots(t, t.abss[i..]), bytes.Length)
        invariant WriteAll(bytes[..], AbsSlots(t, t.abss[i..])) == WriteAll(old(bytes[..]), AbsSlots(t, t.abss))
      {
        assert t.abss[i..][0] == Name(namePool, absRefs[i]) && t.abss[i..][1..] == t.abss[i + 1..];
        var tgt := LookupLabel(absRefs[i]);
        if tgt >= 0 {
          var newTarget := if tgt < staticOffset then BASE + ENTRY_OFFSET + tgt else DATA_VM + (tgt - staticOffset);
          var pos := if absRefs[i].at >= staticOffset then DATA_FILE_OFFSET + (absRefs[i].at - staticOffset) else ENTRY_OFFSET + absRefs[i].at;
          SlotFirst(Slot(pos, newTarget), AbsSlots(t, t.abss[i + 1..]), bytes[..]);
          PackLe32(bytes, pos, newTarget);
        } else {
          assert [] + AbsSlots(t, t.abss[i + 1..]) == AbsSlots(t, t.abss[i + 1..]);
        }
        i := i + 1;
      }
      assert t.abss[|t.abss|..] == [];
    }
  }

  lemma RangeFacts(t: Tables, size: nat, room: nat)
    requires Spaced(t) && Movable(t) && Fits(t, size, room)
    ensures 0 <= t.data && ENTRY_OFFSET + t.data <= size && ENTRY_OFFSET + t.data <= DATA_FILE_OFFSET
  {
  }

  lemma SlotFirst(s: Slot, more: seq<Slot>, b: seq<Byte>)
    requires InRange([s] + more, |b|)
    ensures s.pos + 4 <= |b| && InRange(more, |b|) && WriteAll(b, [s] + more) == WriteAll(Write4(b, s), more)
  {
    assert ([s] + more)[0] == s && ([s] + more)[1..] == more;
    forall k | 0 <= k < |more|
      ensures more[k].pos + 4 <= |b|
    {
      assert ([s] + more)[k + 1] == more[k];
    }
  }

  lemma {:induction false} WriteAllConcat(b: seq<Byte>, x: seq<Slot>, y: seq<Slot>)
    requires InRange(x + y, |b|)
    ensures InRange(x, |b|) && InRange(y, |b|) && WriteAll(b, x + y) == WriteAll(WriteAll(b, x), y)
    decreases |x|
  {
    assert forall k :: 0 <= k < |x| ==> (x + y)[k] == x[k];
    assert forall k :: 0 <= k < |y| ==> (x + y)[|x| + k] == y[k];
    if x == [] {
      assert x + y == y;
    } else {
      assert (x + y)[0] == x[0] && (x + y)[1..] == x[1..] + y;
      WriteAllConcat(Write4(b, x[0]), x[1..], y);
    }
  }

  lemma {:induction false} HandleAllConcat(s: Tables, x: seq<string>, y: seq<string>)
    requires NoEmpty(x) && NoEmpty(y)
    ensures NoEmpty(x + y)
    ensures HandleAll(s, x + y) == match HandleAll(s, x) { case None => None case Some(s1) => HandleAll(s1, y) }
    decreases |x|
  {
    hide Handle;
    if x == [] {
      assert x + y == y;
    } else {
      assert (x + y)[0] == x[0] && (x + y)[1..] == x[1..] + y;
      if Handle(s, x[0]).Some? {
        HandleAllConcat(Handle(s, x[0]).value, x[1..], y);
      }
    }
  }
}
