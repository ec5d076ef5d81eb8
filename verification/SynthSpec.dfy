/** What synth-inject does to a token stream: labels of the form sym_plus_hex that are referenced but
    not defined are defined where they belong. */
module SynthSpec {
  import opened Wrappers
  import opened Hex2Text

  const PLUS := "_plus_"

  predicate AllHexDigits(s: string) {
    forall k :: 0 <= k < |s| ==> DigitOf(Hex, s[k]) >= 0
  }

  /** h2i: the digits up to the first character that is none. */
  function HexValue(s: string, v: nat): nat
    decreases |s|
  {
    if s == "" || DigitOf(Hex, s[0]) < 0 then v else HexValue(s[1..], v * 16 + DigitOf(Hex, s[0]))
  }

  predicate PlusAt(s: string, i: int) {
    0 <= i && i + 6 <= |s| && s[i..i + 6] == PLUS
  }

  /** The last position below n where PLUS begins, or -1. */
  function LastPlus(s: string, n: nat): (i: int)
    requires n <= |s|
    ensures -1 <= i < n && (i >= 0 ==> PlusAt(s, i)) && forall j :: i < j < n ==> !PlusAt(s, j)
  {
    if n == 0 then -1 else if PlusAt(s, n - 1) then n - 1 else LastPlus(s, n - 1)
  }

  /** plus_pos */
  function PlusPos(s: string): (i: int)
    ensures i >= -1 && (i >= 0 ==> PlusAt(s, i))
  {
    var i := LastPlus(s, |s|);
    if i < 0 || i + 6 >= |s| || !AllHexDigits(s[i + 6..]) then -1 else i
  }

  function Label(base: string, hex: string): string {
    base + PLUS + hex
  }

  /** A label of the form base_plus_hex is taken apart as it was put together. */
  lemma PlusPosOfLabel(base: string, hex: string)
    requires hex != "" && AllHexDigits(hex)
    ensures var l := Label(base, hex); PlusPos(l) == |base| && l[..|base|] == base && l[|base| + 6..] == hex
  {
    var l := Label(base, hex);
    assert l[|base|..|base| + 6] == PLUS;
    assert l[|base| + 6..] == hex && l[..|base|] == base;
    assert PlusAt(l, |base|);
    forall i | |base| < i < |l|
      ensures !PlusAt(l, i)
    {
      NoLaterPlus(base, hex, i);
    }
  }

  lemma NoLaterPlus(base: string, hex: string, i: nat)
    requires hex != "" && AllHexDigits(hex) && |base| < i
    ensures !PlusAt(Label(base, hex), i)
  {
    var l := Label(base, hex);
    if i + 6 <= |l| {
      assert l[i..i + 6][0] == l[i] && l[i..i + 6][1] == l[i + 1];
      if i >= |base| + 6 {
        assert l[i] == hex[i - |base| - 6] && l[i] != '_';
      } else if i == |base| + 5 {
        assert l[i + 1] == hex[0] && l[i + 1] != 'p';
      } else {
        assert l[i] == PLUS[i - |base|] && l[i] != '_';
      }
    }
  }

  lemma LabelOfPlusPos(l: string)
    requires PlusPos(l) >= 0
    ensures var i := PlusPos(l); i + 6 < |l| && AllHexDigits(l[i + 6..]) && l == Label(l[..i], l[i + 6..])
  {
    var i := PlusPos(l);
    assert l == l[..i] + l[i..i + 6] + l[i + 6..];
  }

  // ---- tokens -------------------------------------------------------------------------------

  function TokenBytes(t: string): nat {
    if t == "" then 0
    else
      match t[0]
      case '!' => 1
      case '&' => 4
      case '%' => 4
      case '@' => 2
      case '$' => 2
      case '~' => 3
      case _ => 0
  }

  function BytesOf(ts: seq<string>): nat {
    if ts == [] then 0 else TokenBytes(ts[0]) + BytesOf(ts[1..])
  }

  predicate IsLabel(t: string) {
    t != "" && t[0] == ':'
  }

  // ---- the third pass -------------------------------------------------------------------------

  /** A line of the output; injected is not written. */
  datatype Line = Line(text: string, injected: bool)

  type Need = map<string, seq<string>>
  type Sched = map<int, seq<string>>

  function Entries<K>(m: map<K, seq<string>>, k: K): seq<string> {
    if k in m then m[k] else []
  }

  function Injected(labels: seq<string>): (ls: seq<Line>)
    ensures |ls| == |labels|
    ensures forall k :: 0 <= k < |ls| ==> ls[k] == Line(":" + labels[k], true)
  {
    seq(|labels|, k requires 0 <= k < |labels| => Line(":" + labels[k], true))
  }

  /** The labels of a definition of base at pos are put down for their positions. */
  function Schedule(sched: Sched, pos: nat, base: string, hexes: seq<string>): Sched
    decreases |hexes|
  {
    if hexes == [] then sched
    else
      var at := pos + HexValue(hexes[0], 0);
      Schedule(sched[at := Entries(sched, at) + [Label(base, hexes[0])]], pos, base, hexes[1..])
  }

  function Pass(need: Need, ts: seq<string>, pos: nat, sched: Sched): seq<Line>
    decreases |ts|
  {
    if ts == [] then Injected(Entries(sched, pos))
    else if IsLabel(ts[0]) then
      Injected(Entries(sched, pos)) + [Line(ts[0], false)]
      + Pass(need, ts[1..], pos, Schedule(sched - {pos}, pos, ts[0][1..], Entries(need, ts[0][1..])))
    else if TokenBytes(ts[0]) == 0 then [Line(ts[0], false)] + Pass(need, ts[1..], pos, sched)
    else Injected(Entries(sched, pos)) + [Line(ts[0], false)] + Pass(need, ts[1..], pos + TokenBytes(ts[0]), sched - {pos})
  }

  // ---- erasure --------------------------------------------------------------------------------

  function Erase(ls: seq<Line>): seq<string> {
    if ls == [] then [] else (if ls[0].injected then [] else [ls[0].text]) + Erase(ls[1..])
  }

  lemma {:induction false} EraseConcat(a: seq<Line>, b: seq<Line>)
    ensures Erase(a + b) == Erase(a) + Erase(b)
    decreases |a|
  {
    if a == [] {
      assert a + b == b;
    } else {
      assert (a + b)[0] == a[0] && (a + b)[1..] == a[1..] + b;
      EraseConcat(a[1..], b);
    }
  }

  lemma {:induction false} EraseInjected(ls: seq<Line>)
    requires forall k :: 0 <= k < |ls| ==> ls[k].injected
    ensures Erase(ls) == []
    decreases |ls|
  {
    if ls != [] {
      EraseInjected(ls[1..]);
    }
  }

  /** The lines of one step in front of those of the rest. */
  lemma EraseStep(v: seq<string>, t: string, rest: seq<Line>)
    ensures Erase(Injected(v) + [Line(t, false)] + rest) == [t] + Erase(rest) && Erase([Line(t, false)] + rest) == [t] + Erase(rest)
  {
    var here := [Line(t, false)];
    assert here[1..] == [] && Erase(here) == [t] + [];
    EraseInjected(Injected(v));
    hide *;
    EraseConcat(Injected(v) + here, rest);
    EraseConcat(Injected(v), here);
    EraseConcat(here, rest);
    assert [] + [t] == [t];
  }

  /** Without the injected lines the output is the input, token by token. */
  lemma {:induction false} PassErased(need: Need, ts: seq<string>, pos: nat, sched: Sched)
    ensures Erase(Pass(need, ts, pos, sched)) == ts
    decreases |ts|
  {
    var v := Entries(sched, pos);
    if ts == [] {
      EraseInjected(Injected(v));
    } else {
      hide *;
      assert ts == [ts[0]] + ts[1..];
      if IsLabel(ts[0]) {
        var s := Schedule(sched - {pos}, pos, ts[0][1..], Entries(need, ts[0][1..]));
        PassLabel(need, ts, pos, sched);
        PassErased(need, ts[1..], pos, s);
        EraseStep(v, ts[0], Pass(need, ts[1..], pos, s));
      } else {
        PassOther(need, ts, pos, sched);
        var pos1 := pos + TokenBytes(ts[0]);
        PassErased(need, ts[1..], pos, sched);
        PassErased(need, ts[1..], pos1, sched - {pos});
        EraseStep(v, ts[0], Pass(need, ts[1..], pos, sched));
        EraseStep(v, ts[0], Pass(need, ts[1..], pos1, sched - {pos}));
      }
    }
  }

  // ---- placement ------------------------------------------------------------------------------

  function LineBytes(ls: seq<Line>): nat {
    if ls == [] then 0 else (if ls[0].injected then 0 else TokenBytes(ls[0].text)) + LineBytes(ls[1..])
  }

  /** The byte positions at which a label is injected, ls beginning at byte pos. */
  function InjectedAt(ls: seq<Line>, pos: nat, l: string): seq<nat>
    decreases |ls|
  {
    if ls == [] then []
    else
      (if ls[0] == Line(":" + l, true) then [pos] else [])
      + InjectedAt(ls[1..], pos + (if ls[0].injected then 0 else TokenBytes(ls[0].text)), l)
  }

  lemma {:induction false} InjectedAtConcat(a: seq<Line>, b: seq<Line>, pos: nat, l: string)
    ensures InjectedAt(a + b, pos, l) == InjectedAt(a, pos, l) + InjectedAt(b, pos + LineBytes(a), l)
    decreases |a|
  {
    if a == [] {
      assert a + b == b;
    } else {
      assert (a + b)[0] == a[0] && (a + b)[1..] == a[1..] + b;
      InjectedAtConcat(a[1..], b, pos + (if a[0].injected then 0 else TokenBytes(a[0].text)), l);
    }
  }

  function Count(v: seq<string>, l: string): nat {
    if v == [] then 0 else (if v[0] == l then 1 else 0) + Count(v[1..], l)
  }

  lemma {:induction false} CountConcat(a: seq<string>, b: seq<string>, l: string)
    ensures Count(a + b, l) == Count(a, l) + Count(b, l)
    decreases |a|
  {
    if a == [] {
      assert a + b == b;
    } else {
      assert (a + b)[0] == a[0] && (a + b)[1..] == a[1..] + b;
      CountConcat(a[1..], b, l);
    }
  }

  /** n times the position pos. */
  function Copies(n: nat, pos: nat): seq<nat> {
    if n == 0 then [] else [pos] + Copies(n - 1, pos)
  }

  lemma {:induction false} FlushedAt(v: seq<string>, pos: nat, l: string)
    ensures LineBytes(Injected(v)) == 0 && InjectedAt(Injected(v), pos, l) == Copies(Count(v, l), pos)
    decreases |v|
  {
    if v != [] {
      assert Injected(v)[1..] == Injected(v[1..]);
      assert v[0] == l <==> ":" + v[0] == ":" + l by { assert (":" + v[0])[1..] == v[0] && (":" + l)[1..] == l; }
      FlushedAt(v[1..], pos, l);
    }
  }

  /** The lines of one step in front of those of the rest. */
  lemma StepAt(v: seq<string>, t: string, rest: seq<Line>, pos: nat, l: string)
    ensures InjectedAt(Injected(v) + [Line(t, false)] + rest, pos, l) == Copies(Count(v, l), pos) + InjectedAt(rest, pos + TokenBytes(t), l)
    ensures InjectedAt([Line(t, false)] + rest, pos, l) == InjectedAt(rest, pos + TokenBytes(t), l)
  {
    hide InjectedAt, LineBytes, Injected, Count, Copies;
    FlushedAt(v, pos, l);
    var here := [Line(t, false)];
    OwnLine(t, pos, l);
    InjectedAtConcat(here, rest, pos, l);
    assert Injected(v) + here + rest == Injected(v) + (here + rest);
    InjectedAtConcat(Injected(v), here + rest, pos, l);
    assert [] + InjectedAt(rest, pos + TokenBytes(t), l) == InjectedAt(rest, pos + TokenBytes(t), l);
  }

  lemma OwnLine(t: string, pos: nat, l: string)
    ensures LineBytes([Line(t, false)]) == TokenBytes(t) && InjectedAt([Line(t, false)], pos, l) == []
  {
    assert [Line(t, false)][1..] == [];
  }

  function Times(q: seq<nat>, r: int): nat {
    if q == [] then 0 else (if q[0] == r then 1 else 0) + Times(q[1..], r)
  }

  /** The positions for which the label is put down. */
  ghost predicate Pending(sched: Sched, l: string, q: seq<nat>) {
    forall r: int :: Count(Entries(sched, r), l) == Times(q, r)
  }

  predicate Defines(t: string, base: string) {
    t == ":" + base
  }

  ghost predicate NotDefined(ts: seq<string>, base: string) {
    forall k :: 0 <= k < |ts| ==> !Defines(ts[k], base)
  }

  /** The needed hexadecimal parts of every base are different and consist of digits. */
  ghost predicate NeedOk(need: Need) {
    forall b :: b in need ==> HexesOk(need[b])
  }

  predicate HexesOk(v: seq<string>) {
    forall i :: 0 <= i < |v| ==> v[i] != "" && AllHexDigits(v[i])
  }

  lemma LabelsDiffer(base: string, hex: string, base2: string, hex2: string)
    requires hex != "" && AllHexDigits(hex) && hex2 != "" && AllHexDigits(hex2) && Label(base, hex) == Label(base2, hex2)
    ensures base == base2 && hex == hex2
  {
    PlusPosOfLabel(base, hex);
    PlusPosOfLabel(base2, hex2);
  }

  /** Scheduling the labels of a base puts a label down as often as its hexadecimal part is needed
      there, and nothing of another base. */
  lemma {:induction false} ScheduleCounts(sched: Sched, pos: nat, base: string, hexes: seq<string>, b: string, hex: string, r: int)
    requires HexesOk(hexes) && hex != "" && AllHexDigits(hex)
    ensures Count(Entries(Schedule(sched, pos, base, hexes), r), Label(b, hex)) ==
      Count(Entries(sched, r), Label(b, hex)) + if b == base && r == pos + HexValue(hex, 0) then Count(hexes, hex) else 0
    decreases |hexes|
  {
    if hexes != [] {
      var h := hexes[0];
      var at := pos + HexValue(h, 0);
      var s1 := sched[at := Entries(sched, at) + [Label(base, h)]];
      ScheduleCounts(s1, pos, base, hexes[1..], b, hex, r);
      CountConcat(Entries(sched, at), [Label(base, h)], Label(b, hex));
      assert [Label(base, h)][1..] == [];
      if Label(base, h) == Label(b, hex) {
        LabelsDiffer(base, h, b, hex);
      }
    }
  }

  function Without(q: seq<nat>, pos: nat): seq<nat> {
    if q == [] then [] else (if q[0] == pos then [] else [q[0]]) + Without(q[1..], pos)
  }

  predicate From(q: seq<nat>, first: nat) {
    forall i :: 0 <= i < |q| ==> first <= q[i]
  }

  /** In order, and not behind last. */
  predicate Ordered(q: seq<nat>, last: nat) {
    q == [] || (q[0] <= last && From(q[1..], q[0]) && Ordered(q[1..], last))
  }

  lemma {:induction false} WithoutTimes(q: seq<nat>, pos: nat, r: int)
    ensures Times(Without(q, pos), r) == if r == pos then 0 else Times(q, r)
    decreases |q|
  {
    if q != [] {
      WithoutTimes(q[1..], pos, r);
      if q[0] != pos {
        assert ([q[0]] + Without(q[1..], pos))[1..] == Without(q[1..], pos);
      } else {
        assert [] + Without(q[1..], pos) == Without(q[1..], pos);
      }
    }
  }

  lemma {:induction false} WithoutFrom(q: seq<nat>, pos: nat, first: nat)
    requires From(q, first)
    ensures From(Without(q, pos), first)
    decreases |q|
  {
    if q != [] {
      WithoutFrom(q[1..], pos, first);
    }
  }

  lemma {:induction false} WithoutOrdered(q: seq<nat>, pos: nat, last: nat)
    requires Ordered(q, last)
    ensures Ordered(Without(q, pos), last)
    decreases |q|
  {
    hide From;
    if q != [] {
      WithoutOrdered(q[1..], pos, last);
      WithoutFrom(q[1..], pos, q[0]);
      var rest := Without(q[1..], pos);
      if q[0] != pos {
        assert ([q[0]] + rest)[1..] == rest;
      } else {
        assert [] + rest == rest;
      }
    }
  }

  lemma {:induction false} TimesAppend(q: seq<nat>, x: nat, r: int)
    ensures Times(q + [x], r) == Times(q, r) + if x == r then 1 else 0
    decreases |q|
  {
    if q == [] {
      assert q + [x] == [x] && [x][1..] == [];
    } else {
      assert (q + [x])[1..] == q[1..] + [x];
      TimesAppend(q[1..], x, r);
    }
  }

  /** Dropping what has been flushed. */
  lemma DropPending(sched: Sched, pos: nat, l: string, q: seq<nat>)
    requires Pending(sched, l, q)
    ensures Pending(sched - {pos}, l, Without(q, pos))
  {
    hide Times, Without, Count, Ordered;
    forall r: int
      ensures Count(Entries(sched - {pos}, r), l) == Times(Without(q, pos), r)
    {
      WithoutTimes(q, pos, r);
      assert Entries(sched - {pos}, r) == if r == pos then [] else Entries(sched, r);
      NoneCounted(l);
    }
  }

  lemma NoneCounted(l: string)
    ensures Count([], l) == 0
  {
  }

  lemma SchedulePending(sched: Sched, pos: nat, base: string, hexes: seq<string>, b: string, hex: string, q: seq<nat>)
    requires HexesOk(hexes) && hex != "" && AllHexDigits(hex) && Pending(sched, Label(b, hex), q)
    ensures b != base || Count(hexes, hex) == 0 ==> Pending(Schedule(sched, pos, base, hexes), Label(b, hex), q)
    ensures b == base && Count(hexes, hex) == 1 ==> Pending(Schedule(sched, pos, base, hexes), Label(b, hex), q + [pos + HexValue(hex, 0)])
  {
    hide Schedule, Count, Times, Label, HexValue, HexesOk, AllHexDigits;
    forall r: int
      ensures Count(Entries(Schedule(sched, pos, base, hexes), r), Label(b, hex)) ==
        Count(Entries(sched, r), Label(b, hex)) + if b == base && r == pos + HexValue(hex, 0) then Count(hexes, hex) else 0
    {
      ScheduleCounts(sched, pos, base, hexes, b, hex, r);
    }
    forall r: int
      ensures Times(q + [pos + HexValue(hex, 0)], r) == Times(q, r) + if pos + HexValue(hex, 0) == r then 1 else 0
    {
      TimesAppend(q, pos + HexValue(hex, 0), r);
    }
  }

  /** q is the beginning of a token or the end of the stream, which begins at byte pos. */
  predicate Boundary(ts: seq<string>, pos: nat, q: nat)
    decreases |ts|
  {
    q == pos || (ts != [] && Boundary(ts[1..], pos + TokenBytes(ts[0]), q))
  }

  lemma {:induction false} NoBoundaryBefore(ts: seq<string>, pos: nat, q: nat)
    requires q < pos
    ensures !Boundary(ts, pos, q)
    decreases |ts|
  {
    if ts != [] {
      NoBoundaryBefore(ts[1..], pos + TokenBytes(ts[0]), q);
    }
  }

  /** The hexadecimal parts needed for the label that a token defines. */
  function NeedOf(need: Need, t: string): seq<string> {
    if IsLabel(t) then Entries(need, t[1..]) else []
  }

  lemma NeedOfOk(need: Need, t: string)
    requires NeedOk(need)
    ensures HexesOk(NeedOf(need, t))
  {
  }

  /** Those of the positions at which a token begins or the stream ends. */
  function Met(ts: seq<string>, pos: nat, q: seq<nat>): seq<nat> {
    if q == [] then [] else (if Boundary(ts, pos, q[0]) then [q[0]] else []) + Met(ts, pos, q[1..])
  }

  /** One position for every token that defines base: v bytes behind it, if that is a boundary. */
  function Places(ts: seq<string>, pos: nat, base: string, v: nat): seq<nat>
    decreases |ts|
  {
    if ts == [] then []
    else (if Defines(ts[0], base) && Boundary(ts, pos, pos + v) then [pos + v] else []) + Places(ts[1..], pos + TokenBytes(ts[0]), base, v)
  }

  lemma {:induction false} MetEnd(pos: nat, q: seq<nat>)
    ensures Met([], pos, q) == Copies(Times(q, pos), pos)
    decreases |q|
  {
    if q != [] {
      MetEnd(pos, q[1..]);
      assert Boundary([], pos, q[0]) <==> q[0] == pos;
      hide Boundary;
      var n := Times(q[1..], pos);
      assert Copies(1 + n, pos) == [pos] + Copies(n, pos);
      NoCopies(pos, Met([], pos, q[1..]));
    }
  }

  lemma {:induction false} MetAppend(ts: seq<string>, pos: nat, q: seq<nat>, x: nat)
    ensures Met(ts, pos, q + [x]) == Met(ts, pos, q) + if Boundary(ts, pos, x) then [x] else []
    decreases |q|
  {
    hide Boundary;
    if q == [] {
      assert q + [x] == [x] && [x][1..] == [];
      assert Met(ts, pos, []) == [];
    } else {
      assert (q + [x])[1..] == q[1..] + [x];
      MetAppend(ts, pos, q[1..], x);
    }
  }

  /** A token without bytes changes nothing. */
  lemma {:induction false} MetIdle(ts: seq<string>, pos: nat, q: seq<nat>)
    requires ts != [] && TokenBytes(ts[0]) == 0
    ensures Met(ts, pos, q) == Met(ts[1..], pos, q)
    decreases |q|
  {
    hide TokenBytes;
    if q != [] {
      MetIdle(ts, pos, q[1..]);
      BoundaryStep(ts, pos, q[0]);
      assert q[0] == pos ==> Boundary(ts[1..], pos, q[0]);
    }
  }

  lemma BoundaryStep(ts: seq<string>, pos: nat, x: nat)
    requires ts != []
    ensures Boundary(ts, pos, x) <==> x == pos || Boundary(ts[1..], pos + TokenBytes(ts[0]), x)
  {
  }

  lemma {:induction false} Behind(q: seq<nat>, pos: nat)
    requires From(q, pos + 1)
    ensures Times(q, pos) == 0 && Without(q, pos) == q
    decreases |q|
  {
    if q != [] {
      Behind(q[1..], pos);
    }
  }

  lemma {:induction false} MetBehind(ts: seq<string>, pos: nat, q: seq<nat>)
    requires ts != [] && From(q, pos + 1)
    ensures Met(ts, pos, q) == Met(ts[1..], pos + TokenBytes(ts[0]), q)
    decreases |q|
  {
    hide Boundary, TokenBytes;
    if q != [] {
      MetBehind(ts, pos, q[1..]);
      BoundaryStep(ts, pos, q[0]);
    }
  }

  /** What is put down for pos comes first, and then what is met later. */
  lemma {:induction false} MetFlushed(ts: seq<string>, pos: nat, q: seq<nat>, last: nat)
    requires ts != [] && Ordered(q, last)
    ensures Met(ts, pos, q) == Copies(Times(q, pos), pos) + Met(ts[1..], pos + TokenBytes(ts[0]), Without(q, pos))
    decreases |q|
  {
    if q != [] {
      var rest, pos1 := ts[1..], pos + TokenBytes(ts[0]);
      var x, later := q[0], Without(q[1..], pos);
      assert Times(q, pos) == (if x == pos then 1 else 0) + Times(q[1..], pos) && Without(q, pos) == (if x == pos then [] else [x]) + later;
      assert x > pos ==> From(q, pos + 1);
      assert Ordered(q[1..], last);
      hide *;
      MetFirst(ts, pos, q);
      BoundaryStep(ts, pos, x);
      if x > pos {
        MetBehind(ts, pos, q);
        Behind(q, pos);
        NoCopies(pos, Met(rest, pos1, q));
      } else {
        MetFlushed(ts, pos, q[1..], last);
        if x < pos {
          NoBoundaryBefore(rest, pos1, x);
          assert ([x] + later)[0] == x && ([x] + later)[1..] == later;
          MetFirst(rest, pos1, [x] + later);
        } else {
          CopiesNext(Times(q[1..], pos), pos, Met(rest, pos1, later));
          assert [] + later == later;
        }
      }
    }
  }

  lemma MetFirst(ts: seq<string>, pos: nat, q: seq<nat>)
    requires q != []
    ensures Met(ts, pos, q) == if Boundary(ts, pos, q[0]) then [q[0]] + Met(ts, pos, q[1..]) else Met(ts, pos, q[1..])
  {
    hide Boundary;
  }

  lemma CopiesNext(n: nat, pos: nat, a: seq<nat>)
    ensures Copies(1 + n, pos) + a == [pos] + (Copies(n, pos) + a)
  {
  }

  lemma NoCopies(pos: nat, a: seq<nat>)
    ensures Copies(0, pos) + a == a
  {
  }

  /** Whatever has been put down, and whatever tokens define the base: the label is injected where it
      has been put down and met, and v bytes behind every definition of its base. */
  lemma {:induction false} PendingPlaced(need: Need, ts: seq<string>, pos: nat, sched: Sched, base: string, hex: string, q: seq<nat>)
    requires NeedOk(need) && hex != "" && AllHexDigits(hex) && Count(Entries(need, base), hex) == 1
    requires Pending(sched, Label(base, hex), q) && Ordered(q, pos + HexValue(hex, 0))
    ensures InjectedAt(Pass(need, ts, pos, sched), pos, Label(base, hex)) == Met(ts, pos, q) + Places(ts, pos, base, HexValue(hex, 0))
    decreases |ts|, 1
  {
    hide *;
    var l := Label(base, hex);
    var here := Entries(sched, pos);
    PendingCount(sched, l, q, pos);
    if ts == [] {
      FlushedAt(here, pos, l);
      MetEnd(pos, q);
      AtEnd(need, pos, sched, base, HexValue(hex, 0));
      assert Copies(Times(q, pos), pos) + [] == Copies(Times(q, pos), pos);
    } else if IsLabel(ts[0]) {
      LabelStep(need, ts, pos, sched, base, hex, q);
    } else {
      OtherStep(need, ts, pos, sched, base, hex, q);
    }
  }

  lemma AtEnd(need: Need, pos: nat, sched: Sched, base: string, v: nat)
    ensures Pass(need, [], pos, sched) == Injected(Entries(sched, pos)) && Places([], pos, base, v) == []
  {
  }

  lemma {:induction false} LabelStep(need: Need, ts: seq<string>, pos: nat, sched: Sched, base: string, hex: string, q: seq<nat>)
    requires ts != [] && IsLabel(ts[0])
    requires NeedOk(need) && hex != "" && AllHexDigits(hex) && Count(Entries(need, base), hex) == 1
    requires Pending(sched, Label(base, hex), q) && Ordered(q, pos + HexValue(hex, 0))
    ensures InjectedAt(Pass(need, ts, pos, sched), pos, Label(base, hex)) == Met(ts, pos, q) + Places(ts, pos, base, HexValue(hex, 0))
    decreases |ts|, 0
  {
    assert TokenBytes(ts[0]) == 0;
    hide *;
    var t, rest := ts[0], ts[1..];
    var l, v := Label(base, hex), HexValue(hex, 0);
    var q1 := Without(q, pos);
    var more := if Defines(t, base) then [pos + v] else [];
    var s := Schedule(sched - {pos}, pos, t[1..], NeedOf(need, t));
    MetFlushed(ts, pos, q, pos + v);
    LabelPending(need, t, pos, sched, base, hex, q);
    LabelFlushed(need, ts, pos, sched, l, q);
    PendingPlaced(need, rest, pos, s, base, hex, q1 + more);
    PlacesStep(ts, pos, base, v);
    MetMore(ts, pos, base, q1, v);
    Regroup(InjectedAt(Pass(need, ts, pos, sched), pos, l), Copies(Times(q, pos), pos), InjectedAt(Pass(need, rest, pos, s), pos, l), Met(rest, pos, q1),
            if Defines(t, base) && Boundary(ts, pos, pos + v) then [pos + v] else [], Places(rest, pos, base, v), Met(rest, pos, q1 + more),
            Met(ts, pos, q), Places(ts, pos, base, v));
  }

  lemma MetMore(ts: seq<string>, pos: nat, base: string, q: seq<nat>, v: nat)
    requires ts != [] && TokenBytes(ts[0]) == 0
    ensures Met(ts[1..], pos, q + if Defines(ts[0], base) then [pos + v] else []) ==
      Met(ts[1..], pos, q) + if Defines(ts[0], base) && Boundary(ts, pos, pos + v) then [pos + v] else []
  {
    hide Met, Defines, Boundary;
    MetAppend(ts[1..], pos, q, pos + v);
    BoundaryStep(ts, pos, pos + v);
    BoundaryHere(ts[1..], pos);
    assert q + [] == q;
  }

  /** What is put down behind a token that defines a label. */
  lemma LabelPending(need: Need, t: string, pos: nat, sched: Sched, base: string, hex: string, q: seq<nat>)
    requires IsLabel(t) && NeedOk(need) && hex != "" && AllHexDigits(hex) && Count(Entries(need, base), hex) == 1
    requires Pending(sched, Label(base, hex), q) && Ordered(q, pos + HexValue(hex, 0))
    ensures var q1 := Without(q, pos) + if Defines(t, base) then [pos + HexValue(hex, 0)] else [];
      && Pending(Schedule(sched - {pos}, pos, t[1..], NeedOf(need, t)), Label(base, hex), q1)
      && Ordered(q1, pos + HexValue(hex, 0))
  {
    assert t == ":" + t[1..] && (Defines(t, base) <==> t[1..] == base) && NeedOf(need, t) == Entries(need, t[1..]);
    hide *;
    var q1 := Without(q, pos);
    DropPending(sched, pos, Label(base, hex), q);
    WithoutOrdered(q, pos, pos + HexValue(hex, 0));
    OrderedAppend(q1, pos + HexValue(hex, 0));
    NeedOfOk(need, t);
    SchedulePending(sched - {pos}, pos, t[1..], NeedOf(need, t), base, hex, q1);
    assert q1 + [] == q1;
  }

  lemma LabelFlushed(need: Need, ts: seq<string>, pos: nat, sched: Sched, l: string, q: seq<nat>)
    requires ts != [] && IsLabel(ts[0]) && Pending(sched, l, q)
    ensures var s := Schedule(sched - {pos}, pos, ts[0][1..], NeedOf(need, ts[0]));
      InjectedAt(Pass(need, ts, pos, sched), pos, l) == Copies(Times(q, pos), pos) + InjectedAt(Pass(need, ts[1..], pos, s), pos, l)
  {
    assert TokenBytes(ts[0]) == 0;
    hide *;
    var s := Schedule(sched - {pos}, pos, ts[0][1..], NeedOf(need, ts[0]));
    PendingCount(sched, l, q, pos);
    PassLabel(need, ts, pos, sched);
    StepAt(Entries(sched, pos), ts[0], Pass(need, ts[1..], pos, s), pos, l);
  }

  lemma Regroup(all: seq<nat>, now: seq<nat>, later: seq<nat>, met: seq<nat>, place: seq<nat>, places: seq<nat>,
                more: seq<nat>, metAll: seq<nat>, placesAll: seq<nat>)
    requires all == now + later && later == more + places && more == met + place
    requires metAll == now + met && (placesAll == place + places || (place == [] && placesAll == places))
    ensures all == metAll + placesAll
  {
  }

  lemma PassLabel(need: Need, ts: seq<string>, pos: nat, sched: Sched)
    requires ts != [] && IsLabel(ts[0])
    ensures NeedOf(need, ts[0]) == Entries(need, ts[0][1..])
    ensures Pass(need, ts, pos, sched) == Injected(Entries(sched, pos)) + [Line(ts[0], false)]
      + Pass(need, ts[1..], pos, Schedule(sched - {pos}, pos, ts[0][1..], Entries(need, ts[0][1..])))
  {
  }

  lemma PassOther(need: Need, ts: seq<string>, pos: nat, sched: Sched)
    requires ts != [] && !IsLabel(ts[0])
    ensures Pass(need, ts, pos, sched) ==
      if TokenBytes(ts[0]) == 0 then [Line(ts[0], false)] + Pass(need, ts[1..], pos, sched)
      else Injected(Entries(sched, pos)) + [Line(ts[0], false)] + Pass(need, ts[1..], pos + TokenBytes(ts[0]), sched - {pos})
  {
  }

  lemma PlacesStep(ts: seq<string>, pos: nat, base: string, v: nat)
    requires ts != []
    ensures Places(ts, pos, base, v) ==
      (if Defines(ts[0], base) && Boundary(ts, pos, pos + v) then [pos + v] else []) + Places(ts[1..], pos + TokenBytes(ts[0]), base, v)
    ensures !Defines(ts[0], base) ==> Places(ts, pos, base, v) == Places(ts[1..], pos + TokenBytes(ts[0]), base, v)
  {
    hide Boundary;
  }

  lemma {:induction false} OtherStep(need: Need, ts: seq<string>, pos: nat, sched: Sched, base: string, hex: string, q: seq<nat>)
    requires ts != [] && !IsLabel(ts[0])
    requires NeedOk(need) && hex != "" && AllHexDigits(hex) && Count(Entries(need, base), hex) == 1
    requires Pending(sched, Label(base, hex), q) && Ordered(q, pos + HexValue(hex, 0))
    ensures InjectedAt(Pass(need, ts, pos, sched), pos, Label(base, hex)) == Met(ts, pos, q) + Places(ts, pos, base, HexValue(hex, 0))
    decreases |ts|, 0
  {
    assert !Defines(ts[0], base);
    hide *;
    var t, rest := ts[0], ts[1..];
    var l, v := Label(base, hex), HexValue(hex, 0);
    PlacesStep(ts, pos, base, v);
    if TokenBytes(t) == 0 {
      MetIdle(ts, pos, q);
      PendingPlaced(need, rest, pos, sched, base, hex, q);
      PassOther(need, ts, pos, sched);
      StepAt([], t, Pass(need, rest, pos, sched), pos, l);
    } else {
      var pos1, q1 := pos + TokenBytes(t), Without(q, pos);
      OtherPending(pos, sched, l, q, v, pos1);
      MetFlushed(ts, pos, q, pos + v);
      PendingPlaced(need, rest, pos1, sched - {pos}, base, hex, q1);
      OtherFlushed(need, ts, pos, sched, l, q);
      NothingMore(Met(rest, pos1, q1));
      Regroup(InjectedAt(Pass(need, ts, pos, sched), pos, l), Copies(Times(q, pos), pos), InjectedAt(Pass(need, rest, pos1, sched - {pos}), pos1, l), Met(rest, pos1, q1),
              [], Places(rest, pos1, base, v), Met(rest, pos1, q1), Met(ts, pos, q), Places(ts, pos, base, v));
    }
  }

  lemma NothingMore(a: seq<nat>)
    ensures a + [] == a
  {
  }

  lemma OtherFlushed(need: Need, ts: seq<string>, pos: nat, sched: Sched, l: string, q: seq<nat>)
    requires ts != [] && !IsLabel(ts[0]) && TokenBytes(ts[0]) > 0 && Pending(sched, l, q)
    ensures var pos1 := pos + TokenBytes(ts[0]);
      InjectedAt(Pass(need, ts, pos, sched), pos, l) == Copies(Times(q, pos), pos) + InjectedAt(Pass(need, ts[1..], pos1, sched - {pos}), pos1, l)
  {
    hide *;
    PendingCount(sched, l, q, pos);
    PassOther(need, ts, pos, sched);
    StepAt(Entries(sched, pos), ts[0], Pass(need, ts[1..], pos + TokenBytes(ts[0]), sched - {pos}), pos, l);
  }

  lemma OtherPending(pos: nat, sched: Sched, l: string, q: seq<nat>, v: nat, pos1: nat)
    requires Pending(sched, l, q) && Ordered(q, pos + v) && pos <= pos1
    ensures Pending(sched - {pos}, l, Without(q, pos)) && Ordered(Without(q, pos), pos1 + v) && Count(Entries(sched, pos), l) == Times(q, pos)
  {
    hide *;
    PendingCount(sched, l, q, pos);
    DropPending(sched, pos, l, q);
    WithoutOrdered(q, pos, pos + v);
    OrderedMore(Without(q, pos), pos + v, pos1 + v);
  }

  lemma {:induction false} OrderedAppend(q: seq<nat>, last: nat)
    requires Ordered(q, last)
    ensures Ordered(q + [last], last)
    decreases |q|
  {
    if q == [] {
      assert q + [last] == [last] && [last][1..] == [];
    } else {
      OrderedAppend(q[1..], last);
      assert (q + [last])[1..] == q[1..] + [last];
    }
  }

  lemma {:induction false} OrderedMore(q: seq<nat>, last: nat, more: nat)
    requires Ordered(q, last) && last <= more
    ensures Ordered(q, more)
    decreases |q|
  {
    if q != [] {
      OrderedMore(q[1..], last, more);
    }
  }

  lemma BoundaryHere(ts: seq<string>, pos: nat)
    ensures Boundary(ts, pos, pos)
  {
  }

  lemma PendingCount(sched: Sched, l: string, q: seq<nat>, pos: nat)
    requires Pending(sched, l, q)
    ensures Count(Entries(sched, pos), l) == Times(q, pos)
  {
  }

  lemma Shorter(ts: seq<string>, base: string)
    requires ts != [] && NotDefined(ts, base)
    ensures NotDefined(ts[1..], base) && !Defines(ts[0], base)
  {
  }

  lemma {:induction false} BoundaryTail(ts: seq<string>, pos: nat, k: nat, q: nat)
    requires k <= |ts| && q >= pos + BytesOf(ts[..k])
    ensures Boundary(ts, pos, q) <==> Boundary(ts[k..], pos + BytesOf(ts[..k]), q)
    decreases k
  {
    if k == 0 {
      assert ts[0..] == ts;
    } else {
      assert ts[..k][0] == ts[0] && ts[..k][1..] == ts[1..][..k - 1] && ts[1..][k - 1..] == ts[k..];
      var pos1 := pos + TokenBytes(ts[0]);
      BoundaryTail(ts[1..], pos1, k - 1, q);
      if q == pos {
        assert Boundary(ts[1..], pos1, q);
      }
    }
  }

  lemma {:induction false} PlacesNone(ts: seq<string>, pos: nat, base: string, v: nat)
    requires NotDefined(ts, base)
    ensures Places(ts, pos, base, v) == []
    decreases |ts|
  {
    if ts != [] {
      Shorter(ts, base);
      PlacesNone(ts[1..], pos + TokenBytes(ts[0]), base, v);
    }
  }

  /** If only one token defines the base there is at most one place. */
  lemma {:induction false} PlacesOnce(ts: seq<string>, pos: nat, base: string, v: nat, k: nat)
    requires k < |ts| && Defines(ts[k], base) && NotDefined(ts[..k], base) && NotDefined(ts[k + 1..], base)
    ensures var q := pos + BytesOf(ts[..k]) + v;
      Places(ts, pos, base, v) == if Boundary(ts, pos, q) then [q] else []
    decreases k
  {
    hide Boundary, BytesOf, NotDefined;
    var rest := ts[1..];
    var pos1 := pos + TokenBytes(ts[0]);
    if k == 0 {
      assert ts[0 + 1..] == rest;
      NoBytes(ts);
      PlacesNone(rest, pos1, base, v);
    } else {
      LaterToken(ts, pos, k, v);
      assert rest[k - 1] == ts[k] && rest[k - 1 + 1..] == ts[k + 1..];
      Shorter(ts[..k], base);
      PlacesOnce(rest, pos1, base, v, k - 1);
    }
  }

  lemma NoBytes(ts: seq<string>)
    ensures BytesOf(ts[..0]) == 0
  {
  }

  /** What lies at the token at position k and hex bytes further, from the second token on. */
  lemma LaterToken(ts: seq<string>, pos: nat, k: nat, hex: nat)
    requires 0 < k <= |ts|
    ensures ts[..k][0] == ts[0] && ts[..k][1..] == ts[1..][..k - 1]
    ensures BytesOf(ts[..k]) == TokenBytes(ts[0]) + BytesOf(ts[1..][..k - 1])
    ensures var q := pos + BytesOf(ts[..k]) + hex;
      Boundary(ts, pos, q) <==> Boundary(ts[1..], pos + TokenBytes(ts[0]), q)
  {
    hide Boundary, TokenBytes;
    assert ts[..k][1..] == ts[1..][..k - 1];
    assert ts[..1] == [ts[0]] && [ts[0]][1..] == [];
    BoundaryTail(ts, pos, 1, pos + BytesOf(ts[..k]) + hex);
  }

  /** A label that is not needed is not injected. */
  lemma {:induction false} UnneededNever(need: Need, ts: seq<string>, pos: nat, sched: Sched, base: string, hex: string)
    requires NeedOk(need) && hex != "" && AllHexDigits(hex) && Pending(sched, Label(base, hex), [])
    requires Count(Entries(need, base), hex) == 0
    ensures InjectedAt(Pass(need, ts, pos, sched), pos, Label(base, hex)) == []
    decreases |ts|
  {
    hide *;
    var l := Label(base, hex);
    var v := Entries(sched, pos);
    NoneTimes(pos);
    PendingCount(sched, l, [], pos);
    if ts == [] {
      FlushedAt(v, pos, l);
      AtEnd(need, pos, sched, base, 0);
    } else {
      var t, rest := ts[0], ts[1..];
      DropPending(sched, pos, l, []);
      NoCopies(pos, []);
      if IsLabel(t) {
        PassLabel(need, ts, pos, sched);
        NeedOfOk(need, t);
        LabelBytes(t);
        if t[1..] == base { assert Count(NeedOf(need, t), hex) == 0; }
        var s := Schedule(sched - {pos}, pos, t[1..], NeedOf(need, t));
        SchedulePending(sched - {pos}, pos, t[1..], NeedOf(need, t), base, hex, []);
        UnneededNever(need, rest, pos, s, base, hex);
        StepAt(v, t, Pass(need, rest, pos, s), pos, l);
      } else {
        PassOther(need, ts, pos, sched);
        if TokenBytes(t) == 0 {
          UnneededNever(need, rest, pos, sched, base, hex);
          StepAt(v, t, Pass(need, rest, pos, sched), pos, l);
        } else {
          UnneededNever(need, rest, pos + TokenBytes(t), sched - {pos}, base, hex);
          StepAt(v, t, Pass(need, rest, pos + TokenBytes(t), sched - {pos}), pos, l);
        }
      }
    }
  }

  lemma NoneTimes(pos: nat)
    ensures Times([], pos) == 0 && Without([], pos) == [] && Copies(0, pos) == []
  {
  }

  lemma LabelBytes(t: string)
    requires IsLabel(t)
    ensures t != "" && TokenBytes(t) == 0
  {
  }

  // ---- the first two passes -----------------------------------------------------------------------

  /** The label of a reference, without the base behind a >. */
  function Stripped(t: string): string {
    if t == "" || t[0] == '>' then "" else [t[0]] + Stripped(t[1..])
  }

  function Referenced(ts: seq<string>): set<string> {
    if ts == [] then {}
    else
      (if ts[0] != "" && (ts[0][0] == '&' || ts[0][0] == '%') && PlusPos(Stripped(ts[0][1..])) >= 0 then {Stripped(ts[0][1..])} else {})
      + Referenced(ts[1..])
  }

  function Defined(ts: seq<string>): set<string> {
    if ts == [] then {} else (if IsLabel(ts[0]) then {ts[0][1..]} else {}) + Defined(ts[1..])
  }

  lemma {:induction false} DefinedBy(ts: seq<string>, l: string)
    ensures l in Defined(ts) <==> !NotDefined(ts, l)
    decreases |ts|
  {
    if ts != [] {
      DefinedBy(ts[1..], l);
      if IsLabel(ts[0]) {
        assert ts[0] == ":" + ts[0][1..];
      }
      assert forall k :: 1 <= k < |ts| ==> ts[k] == ts[1..][k - 1];
      if !NotDefined(ts[1..], l) {
        var k :| 0 <= k < |ts[1..]| && Defines(ts[1..][k], l);
        assert Defines(ts[k + 1], l);
      } else if Defines(ts[0], l) {
        assert ts[0][1..] == l;
      }
    }
  }

  lemma {:induction false} ReferencedPlus(ts: seq<string>)
    ensures forall l :: l in Referenced(ts) ==> PlusPos(l) >= 0
    decreases |ts|
  {
    if ts != [] {
      ReferencedPlus(ts[1..]);
    }
  }

  /** need holds, for every base, the hexadecimal parts of the labels that are referenced and not
      defined, each once. */
  ghost predicate NeedFor(ts: seq<string>, need: Need) {
    && NeedOk(need)
    && forall base: string, hex: string :: hex != "" && AllHexDigits(hex) ==>
         Count(Entries(need, base), hex) == if Label(base, hex) in Referenced(ts) && Label(base, hex) !in Defined(ts) then 1 else 0
  }

  lemma NothingPending(l: string)
    ensures Pending(map[], l, [])
  {
  }

  /** l is referenced and nothing defines it. */
  predicate Missing(ts: seq<string>, l: string) {
    l in Referenced(ts) && l !in Defined(ts)
  }

  /** Every label sym_plus_hex that is referenced and not defined is injected once for every token that
      defines sym, in their order, at byte sym plus hex, if a token begins or the stream ends at that
      byte, and nowhere else. */
  lemma LabelsPlaced(ts: seq<string>, need: Need, l: string)
    requires NeedFor(ts, need) && Missing(ts, l)
    ensures PlusPos(l) >= 0
    ensures InjectedAt(Pass(need, ts, 0, map[]), 0, l) == Places(ts, 0, l[..PlusPos(l)], HexValue(l[PlusPos(l) + 6..], 0))
  {
    hide Pass, InjectedAt, Boundary, Referenced, Defined, Count, HexValue, Places;
    ReferencedPlus(ts);
    LabelOfPlusPos(l);
    NothingPending(l);
    var base, hex := l[..PlusPos(l)], l[PlusPos(l) + 6..];
    assert Count(Entries(need, base), hex) == 1;
    PendingPlaced(need, ts, 0, map[], base, hex, []);
    assert Met(ts, 0, []) == [] && [] + Places(ts, 0, base, HexValue(hex, 0)) == Places(ts, 0, base, HexValue(hex, 0));
  }

  /** If exactly one token defines sym, that is at most one place. */
  lemma LabelPlaced(ts: seq<string>, need: Need, l: string, k: nat)
    requires NeedFor(ts, need) && Missing(ts, l) && PlusPos(l) >= 0
    requires var base := l[..PlusPos(l)];
      k < |ts| && Defines(ts[k], base) && NotDefined(ts[..k], base) && NotDefined(ts[k + 1..], base)
    ensures var q := BytesOf(ts[..k]) + HexValue(l[PlusPos(l) + 6..], 0);
      InjectedAt(Pass(need, ts, 0, map[]), 0, l) == if Boundary(ts, 0, q) then [q] else []
  {
    hide Pass, InjectedAt, Boundary, Referenced, Defined, HexValue, Places, BytesOf;
    LabelsPlaced(ts, need, l);
    PlacesOnce(ts, 0, l[..PlusPos(l)], HexValue(l[PlusPos(l) + 6..], 0), k);
  }

  /** A token refers to a label if it is % or & and the label, alone or with > and something behind it. */
  predicate RefersTo(t: string, l: string) {
    && |t| >= 1 + |l| && (t[0] == '%' || t[0] == '&') && t[1..1 + |l|] == l && '>' !in l && (|t| > 1 + |l| ==> t[1 + |l|] == '>')
  }

  lemma {:induction false} StrippedIs(s: string, l: string)
    ensures Stripped(s) == l <==> |s| >= |l| && s[..|l|] == l && '>' !in l && (|s| > |l| ==> s[|l|] == '>')
    decreases |s|
  {
    if s != "" && s[0] != '>' {
      if l != "" {
        StrippedIs(s[1..], l[1..]);
        if s[0] == l[0] {
          assert l == [l[0]] + l[1..] && (|s| >= |l| ==> s[..|l|] == [s[0]] + s[1..][..|l| - 1]);
        } else {
          assert |s| >= |l| ==> s[..|l|][0] == s[0];
        }
      }
    } else if s != "" && l != "" && |s| >= |l| {
      assert s[..|l|][0] == s[0];
    }
  }

  /** The referenced labels are those of the form sym_plus_hex to which some token refers. */
  lemma {:induction false} ReferencedIs(ts: seq<string>, l: string)
    ensures l in Referenced(ts) <==> PlusPos(l) >= 0 && exists k :: 0 <= k < |ts| && RefersTo(ts[k], l)
    decreases |ts|
  {
    hide PlusPos, Stripped;
    if ts != [] {
      var t := ts[0];
      ReferencedIs(ts[1..], l);
      if t != "" {
        StrippedIs(t[1..], l);
        assert |t[1..]| >= |l| ==> t[1..][..|l|] == t[1..1 + |l|];
      }
      assert forall k :: 1 <= k < |ts| ==> ts[k] == ts[1..][k - 1];
      if j :| 0 <= j < |ts[1..]| && RefersTo(ts[1..][j], l) {
        assert RefersTo(ts[j + 1], l);
      }
    }
  }
}
