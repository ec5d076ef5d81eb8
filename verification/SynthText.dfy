/** The text synth-inject reads and writes, and what is left of it without the injected labels. */
module SynthText {
  import opened Wrappers
  import opened Hex2Text
  import opened SynthSpec

  // ---- reading tokens -------------------------------------------------------------------------

  predicate IsSpace(c: char) {
    c == ' ' || c == '\t' || c == '\n'
  }

  function WordEnd(t: string): (n: nat)
    ensures n <= |t| && (forall k :: 0 <= k < n ==> !IsSpace(t[k])) && (n < |t| ==> IsSpace(t[n]))
  {
    if t == "" || IsSpace(t[0]) then 0 else 1 + WordEnd(t[1..])
  }

  /** The tokens of a file. */
  function Words(t: string): seq<string>
    decreases |t|
  {
    if t == "" then []
    else if IsSpace(t[0]) then Words(t[1..])
    else [t[..WordEnd(t)]] + Words(t[WordEnd(t)..])
  }

  lemma NextWord(t: string, n: nat)
    requires n <= |t| && (forall k :: 0 <= k < n ==> IsSpace(t[k])) && (n < |t| ==> !IsSpace(t[n]))
    ensures Words(t) == if n < |t| then [t[n..][..WordEnd(t[n..])]] + Words(t[n..][WordEnd(t[n..])..]) else []
    decreases n
  {
    if n > 0 {
      assert t[1..][n - 1..] == t[n..];
      NextWord(t[1..], n - 1);
    } else {
      assert t[0..] == t;
    }
  }

  lemma WordEndIs(t: string, n: nat)
    requires n <= |t| && (forall k :: 0 <= k < n ==> !IsSpace(t[k])) && (n < |t| ==> IsSpace(t[n]))
    ensures WordEnd(t) == n
  {
  }

  // ---- writing lines --------------------------------------------------------------------------

  function Text(ls: seq<Line>): string {
    if ls == [] then "" else ls[0].text + "\n" + Text(ls[1..])
  }

  lemma {:induction false} TextConcat(a: seq<Line>, b: seq<Line>)
    ensures Text(a + b) == Text(a) + Text(b)
    decreases |a|
  {
    if a == [] {
      assert a + b == b;
    } else {
      assert (a + b)[0] == a[0] && (a + b)[1..] == a[1..] + b;
      TextConcat(a[1..], b);
    }
  }

  predicate IsPlain(t: string) {
    forall k :: 0 <= k < |t| ==> !IsSpace(t[k])
  }

  predicate ArePlain(ts: seq<string>) {
    forall k :: 0 <= k < |ts| ==> ts[k] != "" && IsPlain(ts[k])
  }

  lemma {:induction false} WordsPlain(t: string)
    ensures ArePlain(Words(t))
    decreases |t|
  {
    if t != "" {
      WordsPlain(if IsSpace(t[0]) then t[1..] else t[WordEnd(t)..]);
    }
  }

  function Texts(ls: seq<Line>): seq<string> {
    if ls == [] then [] else [ls[0].text] + Texts(ls[1..])
  }

  /** Lines without spaces are read as they were written. */
  lemma {:induction false} TextRead(ls: seq<Line>)
    requires forall k :: 0 <= k < |ls| ==> ls[k].text != "" && IsPlain(ls[k].text)
    ensures Words(Text(ls)) == Texts(ls)
    decreases |ls|
  {
    hide Words, IsPlain;
    if ls == [] {
      NextWord("", 0);
    } else {
      var w, u := ls[0].text, Text(ls[1..]);
      assert Text(ls) == w + "\n" + u;
      TextRead(ls[1..]);
      LineRead(w, u);
    }
  }

  lemma LineRead(w: string, u: string)
    requires w != "" && IsPlain(w)
    ensures Words(w + "\n" + u) == [w] + Words(u)
  {
    var t := w + "\n" + u;
    assert t[|w|] == '\n' && forall k :: 0 <= k < |w| ==> t[k] == w[k];
    WordEndIs(t, |w|);
    var v := "\n" + u;
    assert t[..|w|] == w && t[|w|..] == v && v[1..] == u;
    assert t[0] == w[0] && Words(t) == [t[..|w|]] + Words(t[|w|..]);
    assert v[0] == '\n' && Words(v) == Words(v[1..]);
  }

  // ---- erasure ----------------------------------------------------------------------------------

  /** The definition of a label that is referenced in ts and not defined there. */
  predicate Supplies(ts: seq<string>, t: string) {
    IsLabel(t) && Missing(ts, t[1..])
  }

  /** The words but for such definitions. */
  function Dropped(ts: seq<string>, ws: seq<string>): seq<string> {
    if ws == [] then [] else (if Supplies(ts, ws[0]) then [] else [ws[0]]) + Dropped(ts, ws[1..])
  }

  /** A line of which the text shows whether it has been injected. */
  predicate Shows(ts: seq<string>, x: Line) {
    x.text != "" && IsPlain(x.text) && (x.injected <==> Supplies(ts, x.text))
  }

  predicate AllShow(ts: seq<string>, ls: seq<Line>) {
    forall k :: 0 <= k < |ls| ==> Shows(ts, ls[k])
  }

  lemma {:induction false} DroppedErased(ts: seq<string>, ls: seq<Line>)
    requires AllShow(ts, ls)
    ensures Dropped(ts, Texts(ls)) == Erase(ls)
    decreases |ls|
  {
    hide IsPlain, Supplies;
    if ls != [] {
      assert Shows(ts, ls[0]);
      DroppedErased(ts, ls[1..]);
      assert Texts(ls)[0] == ls[0].text && Texts(ls)[1..] == Texts(ls[1..]);
    }
  }

  lemma StrippedPlain(t: string)
    requires IsPlain(t)
    ensures IsPlain(Stripped(t))
  {
  }

  lemma {:induction false} MissingPlain(ts: seq<string>, l: string)
    requires ArePlain(ts) && l in Referenced(ts)
    ensures IsPlain(l)
    decreases |ts|
  {
    hide IsPlain, Stripped, PlusPos;
    if ts != [] {
      var t := ts[0];
      assert IsPlain(t[1..]) by { TailPlain(t); }
      StrippedPlain(t[1..]);
      if l in Referenced(ts[1..]) {
        MissingPlain(ts[1..], l);
      }
    }
  }

  lemma TailPlain(t: string)
    requires t != "" && IsPlain(t)
    ensures IsPlain(t[1..])
  {
  }

  /** What is put down are missing labels only. */
  predicate MissingAll(ts: seq<string>, ls: seq<string>) {
    forall k :: 0 <= k < |ls| ==> Missing(ts, ls[k])
  }

  ghost predicate Scheduled(ts: seq<string>, sched: Sched) {
    forall r: int :: MissingAll(ts, Entries(sched, r))
  }

  lemma {:induction false} Counted(v: seq<string>, k: nat)
    requires k < |v|
    ensures Count(v, v[k]) > 0
    decreases k
  {
    if k > 0 {
      assert v[1..][k - 1] == v[k];
      Counted(v[1..], k - 1);
    }
  }

  /** The labels of base are missing, since they are needed. */
  lemma NeededMissing(ts: seq<string>, need: Need, base: string, k: nat)
    requires NeedFor(ts, need) && k < |Entries(need, base)|
    ensures Missing(ts, Label(base, Entries(need, base)[k]))
  {
    hide Referenced, Defined, Label, Count;
    var v := Entries(need, base);
    assert base in need && HexesOk(need[base]);
    Counted(v, k);
    assert v[k] != "" && AllHexDigits(v[k]);
  }

  lemma {:induction false} ScheduleMissing(ts: seq<string>, sched: Sched, pos: nat, base: string, hexes: seq<string>)
    requires Scheduled(ts, sched) && forall k :: 0 <= k < |hexes| ==> Missing(ts, Label(base, hexes[k]))
    ensures Scheduled(ts, Schedule(sched, pos, base, hexes))
    decreases |hexes|
  {
    hide Missing, Label, HexValue;
    if hexes != [] {
      var at := pos + HexValue(hexes[0], 0);
      var s1 := sched[at := Entries(sched, at) + [Label(base, hexes[0])]];
      forall r: int
        ensures MissingAll(ts, Entries(s1, r))
      {
        assert MissingAll(ts, Entries(sched, r));
      }
      ScheduleMissing(ts, s1, pos, base, hexes[1..]);
    }
  }

  lemma DropMissing(ts: seq<string>, sched: Sched, pos: nat)
    requires Scheduled(ts, sched)
    ensures Scheduled(ts, sched - {pos})
  {
    forall r: int
      ensures MissingAll(ts, Entries(sched - {pos}, r))
    {
      assert MissingAll(ts, Entries(sched, r));
    }
  }

  lemma FlushShows(ts: seq<string>, v: seq<string>)
    requires ArePlain(ts) && MissingAll(ts, v)
    ensures AllShow(ts, Injected(v))
  {
    hide Referenced, Defined;
    forall k | 0 <= k < |v|
      ensures Shows(ts, Injected(v)[k])
    {
      var t := ":" + v[k];
      assert t[1..] == v[k];
      MissingPlain(ts, v[k]);
    }
  }

  lemma OwnShows(ts: seq<string>, k: nat)
    requires ArePlain(ts) && k < |ts|
    ensures Shows(ts, Line(ts[k], false))
  {
    hide Referenced, Defined;
    var t := ts[k];
    if IsLabel(t) {
      assert Defines(t, t[1..]);
      DefinedBy(ts, t[1..]);
    }
  }

  lemma JoinShows(ts: seq<string>, a: seq<Line>, x: Line, b: seq<Line>)
    requires AllShow(ts, a) && Shows(ts, x) && AllShow(ts, b)
    ensures AllShow(ts, a + [x] + b) && AllShow(ts, [x] + b)
  {
  }

  /** Every line of the third pass shows whether it has been injected. */
  lemma {:induction false} PassShows(ts: seq<string>, need: Need, k: nat, pos: nat, sched: Sched)
    requires ArePlain(ts) && NeedFor(ts, need) && Scheduled(ts, sched) && k <= |ts|
    ensures AllShow(ts, Pass(need, ts[k..], pos, sched))
    decreases |ts| - k
  {
    var us := ts[k..];
    hide *;
    assert MissingAll(ts, Entries(sched, pos)) by { ScheduledAt(ts, sched, pos); }
    FlushShows(ts, Entries(sched, pos));
    if us == [] {
      PassEnd(need, pos, sched);
    } else {
      OwnShows(ts, k);
      assert us[0] == ts[k] && us[1..] == ts[k + 1..];
      var t := us[0];
      DropMissing(ts, sched, pos);
      if IsLabel(t) {
        var hexes := Entries(need, t[1..]);
        forall i | 0 <= i < |hexes| ensures Missing(ts, Label(t[1..], hexes[i])) { NeededMissing(ts, need, t[1..], i); }
        var s := Schedule(sched - {pos}, pos, t[1..], hexes);
        ScheduleMissing(ts, sched - {pos}, pos, t[1..], hexes);
        PassShows(ts, need, k + 1, pos, s);
        PassLabel(need, us, pos, sched);
        JoinShows(ts, Injected(Entries(sched, pos)), Line(t, false), Pass(need, us[1..], pos, s));
      } else {
        PassOther(need, us, pos, sched);
        var pos1 := pos + TokenBytes(t);
        PassShows(ts, need, k + 1, pos, sched);
        PassShows(ts, need, k + 1, pos1, sched - {pos});
        JoinShows(ts, Injected(Entries(sched, pos)), Line(t, false), Pass(need, us[1..], pos, sched));
        JoinShows(ts, Injected(Entries(sched, pos)), Line(t, false), Pass(need, us[1..], pos1, sched - {pos}));
      }
    }
  }

  lemma ScheduledAt(ts: seq<string>, sched: Sched, pos: nat)
    requires Scheduled(ts, sched)
    ensures MissingAll(ts, Entries(sched, pos))
  {
  }

  lemma PassEnd(need: Need, pos: nat, sched: Sched)
    ensures Pass(need, [], pos, sched) == Injected(Entries(sched, pos))
  {
  }

  /** The written text, without the definitions of labels that the input references and does not
      define, is the input, token by token. */
  lemma OutputErased(file: string, need: Need)
    requires NeedFor(Words(file), need)
    ensures Dropped(Words(file), Words(Text(Pass(need, Words(file), 0, map[])))) == Words(file)
  {
    var ts := Words(file);
    assert ts[0..] == ts;
    assert Scheduled(ts, map[]);
    var ls := Pass(need, ts, 0, map[]);
    hide *;
    WordsPlain(file);
    PassShows(ts, need, 0, 0, map[]);
    assert forall k :: 0 <= k < |ls| ==> ls[k].text != "" && IsPlain(ls[k].text) by { ShownPlain(ts, ls); }
    TextRead(ls);
    DroppedErased(ts, ls);
    PassErased(need, ts, 0, map[]);
  }

  lemma ShownPlain(ts: seq<string>, ls: seq<Line>)
    requires AllShow(ts, ls)
    ensures forall k :: 0 <= k < |ls| ==> ls[k].text != "" && IsPlain(ls[k].text)
  {
    forall k | 0 <= k < |ls|
      ensures ls[k].text != "" && IsPlain(ls[k].text)
    {
      assert Shows(ts, ls[k]);
    }
  }
}
