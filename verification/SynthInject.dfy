/** The three passes of synth-inject over its hash tables. */
module SynthInject {
  import opened Wrappers
  import opened HashTable
  import opened Hex2Text
  import opened SynthSpec
  import opened SynthText

  function HashFrom(h: nat, s: string): nat
    decreases |s|
  {
    if s == "" then h else HashFrom(h * 33 + s[0] as int, s[1..])
  }

  function HashStr(s: string): (h: nat)
    ensures h < NB
  {
    HashFrom(5381, s) % NB
  }

  function HashNum(k: int): (h: nat)
    ensures h < NB
  {
    k % NB
  }

  // ---- the labels that are needed ---------------------------------------------------------------

  /** The table need after the given keys of set_refd have been looked at. */
  function NeedFrom(keys: seq<string>, defd: set<string>): Need
    decreases |keys|
  {
    if keys == [] then map[]
    else
      var m := NeedFrom(keys[..|keys| - 1], defd);
      var l := keys[|keys| - 1];
      var i := PlusPos(l);
      if l in defd || i < 0 then m else m[l[..i] := Entries(m, l[..i]) + [l[i + 6..]]]
  }

  function CountKey(keys: seq<string>, l: string): nat
    decreases |keys|
  {
    if keys == [] then 0 else CountKey(keys[..|keys| - 1], l) + if keys[|keys| - 1] == l then 1 else 0
  }

  lemma NeedStep(keys: seq<string>, l: string, defd: set<string>)
    ensures var m := NeedFrom(keys, defd); var i := PlusPos(l);
      NeedFrom(keys + [l], defd) == if l in defd || i < 0 then m else m[l[..i] := Entries(m, l[..i]) + [l[i + 6..]]]
  {
    assert (keys + [l])[..|keys + [l]| - 1] == keys;
  }

  lemma NoNeed(defd: set<string>)
    ensures NeedFrom([], defd) == map[]
  {
  }

  lemma {:induction false} NeedFromOk(keys: seq<string>, defd: set<string>)
    ensures NeedOk(NeedFrom(keys, defd))
    decreases |keys|
  {
    if keys != [] {
      NeedFromOk(keys[..|keys| - 1], defd);
      var l := keys[|keys| - 1];
      if PlusPos(l) >= 0 {
        LabelOfPlusPos(l);
      }
    }
  }

  lemma {:induction false} NeedFromCounts(keys: seq<string>, defd: set<string>, base: string, hex: string)
    requires hex != "" && AllHexDigits(hex)
    ensures Count(Entries(NeedFrom(keys, defd), base), hex) == if Label(base, hex) in defd then 0 else CountKey(keys, Label(base, hex))
    decreases |keys|
  {
    PlusPosOfLabel(base, hex);
    if keys != [] {
      NeedFromCounts(keys[..|keys| - 1], defd, base, hex);
      var m := NeedFrom(keys[..|keys| - 1], defd);
      var l := keys[|keys| - 1];
      var i := PlusPos(l);
      if l !in defd && i >= 0 {
        LabelOfPlusPos(l);
        CountConcat(Entries(m, l[..i]), [l[i + 6..]], hex);
        assert [l[i + 6..]][1..] == [];
      }
    }
  }

  /** The keys of the first buckets, in the order of the loop over them. */
  function KeysOf(chain: seq<Node<string>>): (ks: seq<string>)
    ensures |ks| == |chain| && forall i :: 0 <= i < |ks| ==> ks[i] == chain[i].key
  {
    seq(|chain|, i requires 0 <= i < |chain| => chain[i].key)
  }

  function KeysBelow(buckets: seq<seq<Node<string>>>, b: nat): seq<string>
    requires b <= |buckets|
  {
    if b == 0 then [] else KeysBelow(buckets, b - 1) + KeysOf(buckets[b - 1])
  }

  lemma {:induction false} CountKeyConcat(a: seq<string>, b: seq<string>, l: string)
    ensures CountKey(a + b, l) == CountKey(a, l) + CountKey(b, l)
    decreases |b|
  {
    if b == [] {
      assert a + b == a;
    } else {
      assert (a + b)[..|a + b| - 1] == a + b[..|b| - 1];
      CountKeyConcat(a, b[..|b| - 1], l);
    }
  }

  lemma {:induction false} CountInChain(chain: seq<Node<string>>, l: string)
    requires Different(chain)
    ensures CountKey(KeysOf(chain), l) == if FindIn(chain, l) < |chain| then 1 else 0
    decreases |chain|
  {
    if chain != [] {
      var n := |chain| - 1;
      assert KeysOf(chain)[..n] == KeysOf(chain[..n]);
      CountInChain(chain[..n], l);
      var i := FindIn(chain[..n], l);
      FindInIs(chain, l, if i < n then i else if chain[n].key == l then n else n + 1);
    }
  }

  lemma {:induction false} CountBelow(buckets: seq<seq<Node<string>>>, b: nat, l: string)
    requires b <= |buckets| && forall c :: 0 <= c < b ==> Different(buckets[c])
    requires forall c, i :: 0 <= c < b && 0 <= i < |buckets[c]| ==> HashStr(buckets[c][i].key) == c
    ensures CountKey(KeysBelow(buckets, b), l) ==
      if HashStr(l) < b && FindIn(buckets[HashStr(l)], l) < |buckets[HashStr(l)]| then 1 else 0
    decreases b
  {
    hide HashStr, CountKey, FindIn, Different;
    if b == 0 {
      assert CountKey([], l) == 0 by { NoKeys(l); }
    } else {
      CountBelow(buckets, b - 1, l);
      CountKeyConcat(KeysBelow(buckets, b - 1), KeysOf(buckets[b - 1]), l);
      CountInChain(buckets[b - 1], l);
      if HashStr(l) != b - 1 {
        FindInIs(buckets[b - 1], l, |buckets[b - 1]|);
      }
    }
  }

  lemma NoKeys(l: string)
    ensures CountKey([], l) == 0
  {
  }

  /** Every key of a table is met exactly once. */
  lemma KeysOnce(t: Table<string>, l: string)
    requires t.Valid() && t.hash == HashStr
    ensures CountKey(KeysBelow(t.buckets[..], NB), l) == if l in t.content then 1 else 0
  {
    CountBelow(t.buckets[..], NB, l);
  }

  // ---- the program ------------------------------------------------------------------------------

  class Injector {
    /** What has not been read of the file. */
    var rest: string
    var output: string

    constructor ()
      ensures output == ""
    {
      rest, output := "", "";
    }

    /** None at the end of the file. */
    method NextToken() returns (t: Option<string>)
      modifies this`rest
      ensures Words(old(rest)) == [] ==> t == None
      ensures Words(old(rest)) != [] ==> t == Some(Words(old(rest))[0]) && Words(rest) == Words(old(rest))[1..] && t.value != ""
      ensures |rest| <= |old(rest)| && (t.Some? ==> |rest| < |old(rest)|)
    {
      ghost var s := rest;
      ghost var n := 0;
      while rest != "" && IsSpace(rest[0])
        invariant n <= |s| && rest == s[n..] && forall k :: 0 <= k < n ==> IsSpace(s[k])
        decreases |rest|
      {
        rest := rest[1..];
        n := n + 1;
      }
      NextWord(s, n);
      if rest == "" {
        return None;
      }
      var buf := "";
      ghost var u := rest;
      while rest != "" && !IsSpace(rest[0])
        invariant |buf| <= |u| && buf == u[..|buf|] && rest == u[|buf|..] && forall k :: 0 <= k < |buf| ==> !IsSpace(u[k])
        decreases |rest|
      {
        buf := buf + [rest[0]];
        rest := rest[1..];
      }
      WordEndIs(u, |buf|);
      t := Some(buf);
    }

    /** Pass A1: the referenced labels of the form sym_plus_hex. */
    method CollectReferences(file: string, refd: Table<string>)
      requires refd.Valid() && refd.content == map[]
      modifies this`rest, refd`content, refd.buckets
      ensures refd.Valid() && refd.content.Keys == Referenced(Words(file))
    {
      hide PlusPos, Table.Valid;
      rest := file;
      var t := NextToken();
      ghost var ts := Words(file);
      while t.Some?
        invariant refd.Valid() && t.Some? == (ts != []) && (t.Some? ==> t.value == ts[0] && ts[0] != "" && Words(rest) == ts[1..])
        invariant refd.content.Keys + Referenced(ts) == Referenced(Words(file))
        decreases |ts|
      {
        var c := t.value[0];
        if c == '&' { c := '%'; }
        if c == '%' {
          var l := StripBase(t.value[1..]);
          if PlusPos(l) >= 0 {
            refd.Add(l);
          }
        }
        ts := ts[1..];
        t := NextToken();
      }
    }

    /** The part of a reference in front of a >. */
    method StripBase(l: string) returns (r: string)
      ensures r == Stripped(l)
    {
      var i := 0;
      assert l[0..] == l;
      while i < |l| && l[i] != '>'
        invariant i <= |l| && Stripped(l) == l[..i] + Stripped(l[i..])
      {
        assert l[i..][0] == l[i] && l[i..][1..] == l[i + 1..];
        i := i + 1;
      }
      assert i < |l| ==> l[i..][0] == '>';
      r := l[..i];
      assert Stripped(l[i..]) == "";
    }

    /** Pass A2: which of them are defined. */
    method CollectDefinitions(file: string, refd: Table<string>, defd: Table<string>)
      requires refd.Valid() && defd.Valid() && defd.content == map[] && refd != defd && refd.buckets != defd.buckets
      modifies this`rest, defd`content, defd.buckets
      ensures refd.Valid() && defd.Valid() && defd.content.Keys == Defined(Words(file)) * refd.content.Keys
    {
      hide Table.Valid;
      rest := file;
      var t := NextToken();
      ghost var ts := Words(file);
      while t.Some?
        invariant refd.Valid() && defd.Valid()
        invariant t.Some? == (ts != []) && (t.Some? ==> t.value == ts[0] && ts[0] != "" && Words(rest) == ts[1..])
        invariant defd.content.Keys + Defined(ts) * refd.content.Keys == Defined(Words(file)) * refd.content.Keys
        decreases |ts|
      {
        if t.value[0] == ':' {
          var r := refd.Find(t.value[1..]);
          if r.Some? {
            defd.Add(t.value[1..]);
          }
        }
        ts := ts[1..];
        t := NextToken();
      }
    }

    /** needed = referenced without defined, by base. */
    method CollectNeeded(refd: Table<string>, defd: Table<string>, need: Table<string>) returns (nneed: nat)
      requires refd.Valid() && defd.Valid() && need.Valid() && need.content == map[] && refd.buckets.Length == NB
      requires need != refd && need != defd && need.buckets != refd.buckets && need.buckets != defd.buckets
      modifies need`content, need.buckets
      ensures refd.Valid() && defd.Valid() && need.Valid()
      ensures need.content == NeedFrom(KeysBelow(refd.buckets[..], NB), defd.content.Keys) && (nneed == 0 <==> need.content == map[])
    {
      hide PlusPos, Different, Table.Valid, NeedFrom, KeysOf;
      nneed := 0;
      var bx := 0;
      ghost var buckets := refd.buckets[..];
      NoNeed(defd.content.Keys);
      while bx < NB
        invariant bx <= NB && refd.Valid() && defd.Valid() && need.Valid() && refd.buckets[..] == buckets
        invariant need.content == NeedFrom(KeysBelow(buckets, bx), defd.content.Keys) && (nneed == 0 <==> need.content == map[])
      {
        nneed := CollectChain(refd.buckets[bx], KeysBelow(buckets, bx), defd, need, nneed);
        bx := bx + 1;
      }
    }

    /** The labels of one bucket. */
    method CollectChain(chain: seq<Node<string>>, ghost before: seq<string>, defd: Table<string>, need: Table<string>, nneed0: nat)
      returns (nneed: nat)
      requires defd.Valid() && need.Valid() && need != defd && need.buckets != defd.buckets
      requires need.content == NeedFrom(before, defd.content.Keys) && (nneed0 == 0 <==> need.content == map[])
      modifies need`content, need.buckets
      ensures defd.Valid() && need.Valid()
      ensures need.content == NeedFrom(before + KeysOf(chain), defd.content.Keys) && (nneed == 0 <==> need.content == map[])
    {
      hide PlusPos, Table.Valid, NeedFrom;
      nneed := nneed0;
      var i := 0;
      ghost var seen := before;
      while i < |chain|
        invariant i <= |chain| && defd.Valid() && need.Valid() && seen == before + KeysOf(chain)[..i]
        invariant need.content == NeedFrom(seen, defd.content.Keys) && (nneed == 0 <==> need.content == map[])
      {
        NeedStep(seen, chain[i].key, defd.content.Keys);
        seen := seen + [chain[i].key];
        var r := defd.Find(chain[i].key);
        if r.None? {
          var pp := PlusPos(chain[i].key);
          if pp >= 0 {
            need.Append(chain[i].key[..pp], chain[i].key[pp + 6..]);
            nneed := nneed + 1;
          }
        }
        i := i + 1;
      }
      assert KeysOf(chain)[..|chain|] == KeysOf(chain);
    }

    method EmitTokenLine(t: string)
      modifies this`output
      ensures output == old(output) + (t + "\n")
    {
      output := output + t + "\n";
    }

    method FlushAt(sched: Table<int>, pos: nat)
      requires sched.Valid()
      modifies this`output, sched`content, sched.buckets
      ensures sched.Valid() && sched.content == old(sched.content) - {pos}
      ensures output == old(output) + Text(Injected(Entries(old(sched.content), pos)))
    {
      hide Table.Valid;
      var r := sched.Find(pos);
      if r.Some? {
        FlushVal(r.value);
        sched.Delete(pos);
      } else {
        assert sched.content - {pos} == sched.content;
      }
    }

    method FlushVal(v: seq<string>)
      modifies this`output
      ensures output == old(output) + Text(Injected(v))
    {
      var i := 0;
      while i < |v|
        invariant i <= |v| && output + Text(Injected(v[i..])) == old(output) + Text(Injected(v))
      {
        assert Injected(v[i..])[1..] == Injected(v[i + 1..]);
        EmitTokenLine(":" + v[i]);
        i := i + 1;
      }
    }

    /** The labels of a base that is defined at pos go into the schedule. */
    method ScheduleAll(sched: Table<int>, pos: nat, base: string, hexes: seq<string>)
      requires sched.Valid()
      modifies sched`content, sched.buckets
      ensures sched.Valid() && sched.content == Schedule(old(sched.content), pos, base, hexes)
    {
      hide Table.Valid;
      var i := 0;
      assert hexes[0..] == hexes;
      while i < |hexes|
        invariant i <= |hexes| && sched.Valid()
        invariant Schedule(sched.content, pos, base, hexes[i..]) == Schedule(old(sched.content), pos, base, hexes)
      {
        assert hexes[i..][0] == hexes[i] && hexes[i..][1..] == hexes[i + 1..];
        var tp := pos + HexValue(hexes[i], 0);
        sched.Append(tp, Label(base, hexes[i]));
        i := i + 1;
      }
      assert hexes[|hexes|..] == [];
    }

    /** Pass B. */
    method InjectLabels(file: string, need: Table<string>, sched: Table<int>)
      requires need.Valid() && sched.Valid() && sched.content == map[]
      requires need.buckets as object != sched.buckets as object
      modifies this, sched`content, sched.buckets
      ensures output == old(output) + Text(Pass(need.content, Words(file), 0, map[]))
    {
      hide Schedule, Table.Valid, Pass, Words, Text, Injected, TokenBytes;
      rest := file;
      var pos := 0;
      var t := NextToken();
      ghost var ts := Words(file);
      ghost var n := need.content;
      while t.Some?
        invariant need.Valid() && sched.Valid() && need.content == n
        invariant t.Some? == (ts != []) && (t.Some? ==> t.value == ts[0] && ts[0] != "" && Words(rest) == ts[1..])
        invariant output + Text(Pass(n, ts, pos, sched.content)) == old(output) + Text(Pass(n, Words(file), 0, map[]))
        decreases |ts|
      {
        StepText(n, ts, pos, sched.content);
        if t.value[0] == ':' {
          FlushAt(sched, pos);
          EmitTokenLine(t.value);
          var m := need.Find(t.value[1..]);
          ScheduleAll(sched, pos, t.value[1..], if m.Some? then m.value else []);
        } else {
          var b := TokenBytes(t.value);
          if b == 0 {
            EmitTokenLine(t.value);
          } else {
            FlushAt(sched, pos);
            EmitTokenLine(t.value);
            pos := pos + b;
          }
        }
        ts := ts[1..];
        t := NextToken();
      }
      PassEnd(n, pos, sched.content);
      FlushAt(sched, pos);
    }

    /** The fast path: nothing is needed. */
    method CopyTokens(file: string)
      modifies this
      ensures output == old(output) + Text(Pass(map[], Words(file), 0, map[]))
    {
      hide Pass, Words, Text, Injected, Schedule, Entries;
      rest := file;
      var t := NextToken();
      ghost var ts := Words(file);
      ghost var pos: nat := 0;
      while t.Some?
        invariant t.Some? == (ts != []) && (t.Some? ==> t.value == ts[0] && ts[0] != "" && Words(rest) == ts[1..])
        invariant output + Text(Pass(map[], ts, pos, map[])) == old(output) + Text(Pass(map[], Words(file), 0, map[]))
        decreases |ts|
      {
        StepText(map[], ts, pos, map[]);
        NothingToFlush(pos);
        pos := pos + TokenBytes(ts[0]);
        EmitTokenLine(t.value);
        ts := ts[1..];
        t := NextToken();
      }
      NothingToFlush(pos);
      PassEnd(map[], pos, map[]);
    }

    /** The whole program: the output is that of the third pass for a table of exactly the labels that
        are referenced and not defined, and without the lines that define one of these it is the input,
        token by token. */
    method Inject(file: string)
      modifies this
      ensures old(output) <= output && Dropped(Words(file), Words(output[|old(output)|..])) == Words(file)
      ensures exists need: Need :: NeedFor(Words(file), need) && output == old(output) + Text(Pass(need, Words(file), 0, map[]))
    {
      hide HashStr, HashNum, Words, Pass, Table.Valid, NeedFor, Referenced, Defined, NeedFrom, Text, Dropped;
      var refd := new Table<string>(HashStr);
      var defd := new Table<string>(HashStr);
      var need := new Table<string>(HashStr);
      var sched := new Table<int>(HashNum);
      CollectReferences(file, refd);
      CollectDefinitions(file, refd, defd);
      var nneed := CollectNeeded(refd, defd, need);
      NeedComplete(Words(file), refd, defd, need.content);
      ghost var n := need.content;
      if nneed == 0 {
        CopyTokens(file);
      } else {
        InjectLabels(file, need, sched);
      }
      assert NeedFor(Words(file), n);
      OutputErased(file, n);
      assert output[|old(output)|..] == Text(Pass(n, Words(file), 0, map[]));
    }
  }

  lemma NothingToFlush(pos: nat)
    ensures var none: Sched := map[];
      Text(Injected(Entries(none, pos))) == "" && none - {pos} == none && (forall b: string :: Entries(map[], b) == []) && forall b: string :: Schedule(none, pos, b, []) == none
  {
  }

  /** The text of one step of the third pass and of the rest. */
  lemma StepText(need: Need, ts: seq<string>, pos: nat, sched: Sched)
    requires ts != []
    ensures var flush := Text(Injected(Entries(sched, pos))); var t := ts[0];
      Text(Pass(need, ts, pos, sched)) ==
        if IsLabel(t) then flush + (t + "\n") + Text(Pass(need, ts[1..], pos, Schedule(sched - {pos}, pos, t[1..], Entries(need, t[1..]))))
        else if TokenBytes(t) == 0 then (t + "\n") + Text(Pass(need, ts[1..], pos, sched))
        else flush + (t + "\n") + Text(Pass(need, ts[1..], pos + TokenBytes(t), sched - {pos}))
  {
    hide Schedule;
    var v, t := Injected(Entries(sched, pos)), ts[0];
    var here := [Line(t, false)];
    assert here[1..] == [] && Text(here) == t + "\n" + "";
    assert t + "\n" + "" == t + "\n";
    TextConcat(v, here);
    var rest := if IsLabel(t) then Pass(need, ts[1..], pos, Schedule(sched - {pos}, pos, t[1..], Entries(need, t[1..])))
                else if TokenBytes(t) == 0 then Pass(need, ts[1..], pos, sched)
                else Pass(need, ts[1..], pos + TokenBytes(t), sched - {pos});
    TextConcat(here, rest);
    TextConcat(v + here, rest);
  }

  lemma NeedComplete(ts: seq<string>, refd: Table<string>, defd: Table<string>, need: Need)
    requires refd.Valid() && defd.Valid() && refd.hash == HashStr
    requires refd.content.Keys == Referenced(ts) && defd.content.Keys == Defined(ts) * refd.content.Keys
    requires need == NeedFrom(KeysBelow(refd.buckets[..], NB), defd.content.Keys)
    ensures NeedFor(ts, need)
  {
    hide HashStr, NeedFrom, KeysBelow, Referenced, Defined, Label;
    var keys := KeysBelow(refd.buckets[..], NB);
    NeedFromOk(keys, defd.content.Keys);
    forall base: string, hex: string | hex != "" && AllHexDigits(hex)
      ensures Count(Entries(need, base), hex) == if Label(base, hex) in Referenced(ts) && Label(base, hex) !in Defined(ts) then 1 else 0
    {
      NeedFromCounts(keys, defd.content.Keys, base, hex);
      KeysOnce(refd, Label(base, hex));
    }
  }
}
