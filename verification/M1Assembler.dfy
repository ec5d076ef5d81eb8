/** M1-macro.c: every distinct text is one blob in a hash table, shared by all its tokens, and the
    passes over tokens and blobs write what is printed into the blobs in place. */
module M1Assembler {
  import opened Wrappers
  import opened Hex2Text
  import opened HexWords
  import opened Stringify
  import opened M1Text

  class Blob {
    const text: string
    /** type is STR. */
    const isString: bool
    /** Expression, which may be NULL. */
    var expression: Option<string>

    constructor (text: string, isString: bool)
      ensures this.text == text && this.isString == isString && expression == None
    {
      this.text, this.isString, expression := text, isString, None;
    }
  }

  function HashFrom(i: nat, s: string): nat
    decreases |s|
  {
    if s == "" then i else HashFrom(i * 33 + s[0] as int, s[1..])
  }

  function Hash(s: string): (h: nat)
    ensures h < 65536
  {
    HashFrom(5381, s) % 65536
  }

  /** The first blob of a chain with this text. */
  function InChain(chain: seq<Blob>, s: string): Option<Blob> {
    if chain == [] then None else if chain[0].text == s then Some(chain[0]) else InChain(chain[1..], s)
  }

  lemma EmptyChain()
    ensures forall t: string :: InChain([], t) == None
  {
  }

  function Texts(bs: seq<Blob>): (ws: seq<string>)
    ensures |ws| == |bs|
    ensures forall k :: 0 <= k < |bs| ==> ws[k] == bs[k].text
  {
    seq(|bs|, k requires 0 <= k < |bs| => bs[k].text)
  }

  lemma NothingInFront(r: Option<Macros>)
    ensures InFront([], r) == r
  {
    if r.Some? {
      assert [] + r.value.stream == r.value.stream;
    }
  }

  lemma InFrontTwice(a: seq<string>, b: seq<string>, r: Option<Macros>)
    ensures InFront(a, InFront(b, r)) == InFront(a + b, r)
  {
    if r.Some? {
      assert a + (b + r.value.stream) == a + b + r.value.stream;
    }
  }

  /** One round of line_macro on what is still to be read. */
  lemma DefineStep(a: seq<string>, ws: seq<string>, defs: map<string, string>)
    requires ws != []
    ensures InFront(a, Define(ws, defs)) ==
      if ws[0] != DEFINE then InFront(a + [ws[0]], Define(ws[1..], defs))
      else if |ws| < 3 then None
      else InFront(a + [NEWLINE], Define(ws[3..], defs[ws[1] := Value(ws[2])]))
  {
    hide InFront;
    if ws[0] != DEFINE {
      InFrontTwice(a, [ws[0]], Define(ws[1..], defs));
    } else if |ws| >= 3 {
      InFrontTwice(a, [NEWLINE], Define(ws[3..], defs[ws[1] := Value(ws[2])]));
    } else {
      NoneInFront(a);
    }
  }

  lemma NoneInFront(a: seq<string>)
    ensures InFront(a, None) == None
  {
  }

  lemma TextsReplaced(a: seq<Blob>, b: Blob, rest: seq<Blob>)
    ensures var bs := a + [b] + rest; Texts(bs[..|a| + 1]) == Texts(a) + [b.text] && bs[|a| + 1..] == rest
  {
  }

  lemma NothingLeft(bs: seq<Blob>, defs: map<string, string>)
    ensures bs[..|bs|] == bs && InFront(Texts(bs), Define(Texts(bs[|bs|..]), defs)) == Some(Macros(Texts(bs), defs))
  {
    assert Texts(bs) + [] == Texts(bs);
  }

  lemma TextsRest(bs: seq<Blob>, i: nat)
    requires i < |bs|
    ensures Texts(bs[i..]) == [bs[i].text] + Texts(bs[i + 1..])
    ensures i + 2 < |bs| ==> Texts(bs[i..])[3..] == Texts(bs[i + 3..])
    ensures Texts(bs[..i + 1]) == Texts(bs[..i]) + [bs[i].text]
  {
  }

  predicate Clean(a: string, stop: string) {
    forall k :: 0 <= k < |a| ==> a[k] !in stop
  }

  lemma Longer(a: string, c: char, stop: string)
    requires a != "" ==> c !in stop && Clean(a[1..], stop)
    ensures Clean((a + [c])[1..], stop)
  {
    assert a != "" ==> (a + [c])[1..] == a[1..] + [c];
  }

  /** What has been collected after the first character is what comes before the first stop. */
  lemma UntilIs(c: char, u: string, s: string, stop: string, rest: string)
    requires s != "" && [c] + u == s + rest && Clean(s[1..], stop) && (rest == "" || rest[0] in stop)
    ensures var n := Until(u, stop); s == [c] + u[..n] && (rest == "" <==> n == |u|) && (rest != "" ==> u[n] == rest[0] && u[n + 1..] == rest[1..])
  {
    var n := |s| - 1;
    assert ([c] + u)[1..] == u && (s + rest)[1..] == s[1..] + rest;
    assert u == s[1..] + rest;
    assert s[0] == ([c] + u)[0];
    assert forall k :: 0 <= k < n ==> u[k] == s[1..][k];
    UntilUnique(u, stop, n);
  }

  lemma UntilAtLeast(c: char, u: string, s: string, stop: string)
    requires s != "" && |s| <= |u| + 1 && s == ([c] + u)[..|s|] && Clean(s[1..], stop)
    ensures Until(u, stop) + 1 >= |s|
  {
    hide Until;
    assert forall k :: 0 <= k < |s| - 1 ==> u[k] == s[1..][k];
  }

  lemma TextsAppend(a: seq<Blob>, b: Blob)
    ensures Texts(a + [b]) == Texts(a) + [b.text]
  {
  }

  lemma PrependConcat(a: seq<string>, b: seq<string>, r: Option<seq<string>>)
    ensures Prepend(a, Prepend(b, r)) == Prepend(a + b, r)
  {
    if r.Some? {
      assert a + (b + r.value) == a + b + r.value;
    }
  }

  // What each pass leaves in the blob of a text.

  function AfterMacros(defs: map<string, string>, t: string): Option<string> {
    Known(defs, t)
  }

  function AfterStrings(mode: ByteMode, defs: map<string, string>, t: string): Option<string>
    requires t != ""
  {
    if IsStr(t) then Some(if t[0] == '\'' then t[1..] else Hexified(mode, t[1..])) else AfterMacros(defs, t)
  }

  function AfterImmediates(mode: ByteMode, big: bool, defs: map<string, string>, t: string): Option<string>
    requires t != ""
  {
    if AfterStrings(mode, defs, t).None? && t[0] in POINTERS && IsNumber(t[1..]) then Immediate(mode, big, t[0], StrToInt(t[1..]))
    else AfterStrings(mode, defs, t)
  }

  function AfterOthers(mode: ByteMode, big: bool, defs: map<string, string>, t: string): Option<string>
    requires t != ""
  {
    var e := Express(mode, big, t, defs);
    if e.Text? then Some(e.s) else None
  }

  /** What makes eval_immediates and preserve_other exit. */
  predicate FailsNumber(mode: ByteMode, big: bool, defs: map<string, string>, t: string)
    requires t != ""
  {
    AfterStrings(mode, defs, t).None? && t[0] in POINTERS && IsNumber(t[1..]) && Immediate(mode, big, t[0], StrToInt(t[1..])).None?
  }

  predicate FailsPadding(mode: ByteMode, defs: map<string, string>, t: string)
    requires t != ""
  {
    AfterStrings(mode, defs, t).None? && t[0] == '<' && StrToInt(t[1..]) < 0
  }

  lemma FailsEither(mode: ByteMode, big: bool, defs: map<string, string>, t: string)
    requires t != ""
    ensures Express(mode, big, t, defs).Fails? <==> FailsNumber(mode, big, defs, t) || FailsPadding(mode, defs, t)
  {
  }

  /** preserve_other on a blob. */
  function Preserved(mode: ByteMode, t: string): Option<string>
    requires t != ""
  {
    if t[0] in POINTERS || t[0] == ':' || t[0] == '^' then Some(t)
    else if t[0] == '<' then
      var n := StrToInt(t[1..]);
      if n == 0 then Some(t) else if n < 0 then None else Some(Padding(mode, n))
    else None
  }

  lemma OthersLast(mode: ByteMode, big: bool, defs: map<string, string>, t: string)
    requires t != "" && !FailsNumber(mode, big, defs, t)
    ensures AfterOthers(mode, big, defs, t) ==
      if AfterImmediates(mode, big, defs, t).Some? then AfterImmediates(mode, big, defs, t) else Preserved(mode, t)
  {
  }

  lemma NoImmediate(mode: ByteMode, big: bool, defs: map<string, string>, t: string)
    requires t != "" && !FailsNumber(mode, big, defs, t)
    ensures AfterImmediates(mode, big, defs, t).None? ==> AfterStrings(mode, defs, t).None?
    ensures AfterImmediates(mode, big, defs, t).Some? && t[0] == '<' ==> AfterStrings(mode, defs, t).Some?
  {
  }

  lemma HexifiedAt(mode: ByteMode, t: string, k: nat)
    requires 0 < k <= |t|
    ensures Hexified(mode, t[k..]) == Digits(mode, if k < |t| then t[k] as int else 0, Group(mode)) + " " + (if k < |t| then Hexified(mode, t[k + 1..]) else "")
  {
    hide Digits;
    if k < |t| {
      assert t[k..][1..] == t[k + 1..];
    } else {
      assert t[k..] == "" && Hexified(mode, "") + "" == Hexified(mode, "");
    }
  }

  lemma {:induction false} ScanFails(files: seq<string>, k: nat)
    requires k <= |files| && ScanAll(files[..k]).None?
    ensures ScanAll(files).None?
    decreases |files|
  {
    hide Scan;
    if k == |files| {
      assert files[..k] == files;
    } else {
      assert files[..|files| - 1][..k] == files[..k];
      ScanFails(files[..|files| - 1], k);
    }
  }

  lemma {:induction false} DefineEnds(ws: seq<string>, defs: map<string, string>)
    requires Ended(ws)
    ensures Define(ws, defs).Some? ==> var stream := Define(ws, defs).value.stream; Ended(stream) && (stream == [] <==> ws == [])
    decreases |ws|
  {
    if ws == [] {
    } else if ws[0] != DEFINE {
      DefineEnds(ws[1..], defs);
    } else if |ws| >= 3 {
      DefineEnds(ws[3..], defs[ws[1] := Value(ws[2])]);
    }
  }

  function After(out: string, r: Option<string>): Option<string> {
    if r.Some? then Some(out + r.value) else None
  }

  lemma NothingPrinted(mode: ByteMode, big: bool, ws: seq<string>, defs: map<string, string>)
    requires "" !in ws
    ensures ws[0..] == ws && ws[|ws|..] == [] && Print(mode, big, [], defs) == Some("")
    ensures forall r: Option<string> :: After("", r) == r
    ensures forall t: string :: After(t, Some("")) == Some(t)
  {
    assert forall t: string :: t + "" == t && "" + t == t;
  }

  /** What print_hex adds for one token. */
  lemma PrintStep(mode: ByteMode, big: bool, ws: seq<string>, defs: map<string, string>, k: nat, out: string)
    requires "" !in ws && k < |ws|
    ensures var e := AfterOthers(mode, big, defs, ws[k]);
      After(out, Print(mode, big, ws[k..], defs)) ==
        if ws[k] == NEWLINE then After(out + (if k + 1 < |ws| && ws[k + 1] == NEWLINE then "" else "\n"), Print(mode, big, ws[k + 1..], defs))
        else if e.None? then None
        else After(out + e.value + (if k + 1 < |ws| && ws[k + 1] != NEWLINE then " " else ""), Print(mode, big, ws[k + 1..], defs))
  {
    var us := ws[k..];
    assert us[1..] == ws[k + 1..] && us[0] == ws[k] && (k + 1 < |ws| ==> us[1] == ws[k + 1]);
    PrintFirst(mode, big, us, defs);
    var rest := Print(mode, big, ws[k + 1..], defs);
    if ws[k] == NEWLINE {
      AfterTwice(out, if k + 1 < |ws| && ws[k + 1] == NEWLINE then "" else "\n", rest);
    } else {
      var e, gap := AfterOthers(mode, big, defs, ws[k]), if k + 1 < |ws| && ws[k + 1] != NEWLINE then " " else "";
      if e.Some? {
        AfterTwice(out, e.value + gap, rest);
        assert out + (e.value + gap) == out + e.value + gap;
      }
    }
  }

  lemma AfterTwice(a: string, b: string, r: Option<string>)
    ensures After(a, After(b, r)) == After(a + b, r)
  {
    if r.Some? {
      assert a + (b + r.value) == a + b + r.value;
    }
  }

  lemma PrintFirst(mode: ByteMode, big: bool, ws: seq<string>, defs: map<string, string>)
    requires "" !in ws && ws != []
    ensures var e, rest := AfterOthers(mode, big, defs, ws[0]), Print(mode, big, ws[1..], defs);
      Print(mode, big, ws, defs) ==
        if ws[0] == NEWLINE then After(if |ws| > 1 && ws[1] == NEWLINE then "" else "\n", rest)
        else if e.None? then None
        else After(e.value + (if |ws| > 1 && ws[1] != NEWLINE then " " else ""), rest)
  {
    hide Express;
  }

  class Assembler {
    const mode: ByteMode
    const bigEndian: bool
    /** What fgetc has not read yet. */
    var source: string
    var scratch: string
    /** In the order of the program; main turns the list that Tokenize_Line builds around. */
    var tokenList: seq<Blob>
    var blobList: seq<Blob>
    var hashTable: array<seq<Blob>>
    const newlineBlob: Blob
    const defineBlob: Blob
    /** Every blob by its text. */
    ghost var blobs: map<string, Blob>

    ghost predicate Interned()
      reads this`hashTable, this`blobs, this`blobList, hashTable
    {
      Chained() && Listed() && Named()
    }

    ghost predicate Chained()
      reads this`hashTable, this`blobs, hashTable
    {
      hashTable.Length == 65537 && forall s: string :: InChain(hashTable[Hash(s)], s) == if s in blobs then Some(blobs[s]) else None
    }

    ghost predicate Listed()
      reads this`blobs, this`blobList
    {
      && (forall s :: s in blobs ==> blobs[s] in blobList)
      && (forall b :: b in blobList ==> b.text in blobs && blobs[b.text] == b)
      && (forall i, j :: 0 <= i < j < |blobList| ==> blobList[i] != blobList[j])
    }

    ghost predicate Named()
      reads this`blobs
    {
      && (forall s :: s in blobs ==> s != "" && blobs[s].text == s && blobs[s].isString == IsStr(s))
      && NEWLINE in blobs && blobs[NEWLINE] == newlineBlob && DEFINE in blobs && blobs[DEFINE] == defineBlob
    }

    ghost predicate Valid()
      reads this`hashTable, this`blobs, this`blobList, this`tokenList, hashTable
    {
      Interned() && forall b :: b in tokenList ==> b.text in blobs && blobs[b.text] == b
    }

    /** While the files are read there is nothing to print for any blob, and every blob has a token. */
    ghost predicate Reading()
      reads this`hashTable, this`blobs, this`blobList, this`tokenList, hashTable, blobs.Values
    {
      Valid() && forall s :: s in blobs && s != NEWLINE ==> blobs[s].expression == None && (s == DEFINE || s in Texts(tokenList))
    }

    /** The head of token_list is a newline, or there is none. */
    ghost predicate Quiet()
      reads this`tokenList
    {
      tokenList == [] || tokenList[|tokenList| - 1].text == NEWLINE
    }

    constructor (mode: ByteMode, bigEndian: bool)
      ensures Valid() && tokenList == [] && this.mode == mode && this.bigEndian == bigEndian && scratch == ""
      ensures fresh(hashTable) && fresh(blobs.Values) && blobs.Keys == {NEWLINE, DEFINE}
      ensures blobs[DEFINE].expression == None
    {
      this.mode, this.bigEndian := mode, bigEndian;
      source, scratch, tokenList := "", "", [];
      var n := new Blob(NEWLINE, false);
      var d := new Blob(DEFINE, false);
      var table := new seq<Blob>[65537](_ => []);
      newlineBlob, defineBlob, blobList, hashTable := n, d, [d, n], table;
      blobs := map[NEWLINE := n, DEFINE := d];
      new;
      hide Interned, InChain, Hash;
      Setup();
    }

    /** The two blobs that main makes. */
    method Setup()
      requires hashTable.Length == 65537 && forall h :: 0 <= h < 65537 ==> hashTable[h] == []
      requires Named() && blobList == [defineBlob, newlineBlob] && blobs == map[NEWLINE := newlineBlob, DEFINE := defineBlob]
      modifies hashTable, newlineBlob
      ensures Interned() && newlineBlob.expression == Some(NEWLINE)
    {
      hide Hash, InChain;
      EmptyChain();
      newlineBlob.expression := Some(NEWLINE);
      AddHash(newlineBlob, NEWLINE, map[]);
      AddHash(defineBlob, DEFINE, map[NEWLINE := newlineBlob]);
      assert map[NEWLINE := newlineBlob][DEFINE := defineBlob] == blobs;
    }

    method GetHash(s: string) returns (h: nat)
      ensures h == Hash(s)
    {
      var i: nat := 5381;
      var k := 0;
      while k < |s|
        invariant k <= |s| && HashFrom(i, s[k..]) == HashFrom(5381, s)
      {
        i := i * 32 + i + s[k] as int;
        k := k + 1;
      }
      assert s[k..] == "";
      h := i % 65536;
    }

    method FindBlob() returns (b: Blob?)
      requires Interned()
      ensures if scratch in blobs then b == blobs[scratch] else b == null
    {
      var h := GetHash(scratch);
      var chain := hashTable[h];
      while chain != []
        invariant InChain(chain, scratch) == if scratch in blobs then Some(blobs[scratch]) else None
        decreases |chain|
      {
        if chain[0].text == scratch {
          return chain[0];
        }
        chain := chain[1..];
      }
      return null;
    }

    method AddHash(a: Blob, s: string, ghost known: map<string, Blob>)
      requires hashTable.Length == 65537 && a.text == s && s !in known
      requires forall t: string :: InChain(hashTable[Hash(t)], t) == if t in known then Some(known[t]) else None
      modifies hashTable
      ensures var now := known[s := a]; forall t: string :: InChain(hashTable[Hash(t)], t) == if t in now then Some(now[t]) else None
    {
      hide Hash;
      var h := GetHash(s);
      ghost var chain := hashTable[h];
      hashTable[h] := [a] + hashTable[h];
      assert ([a] + chain)[1..] == chain;
    }

    method NewBlob(isString: bool) returns (a: Blob)
      requires Valid() && scratch !in blobs && scratch != "" && isString == IsStr(scratch)
      modifies this`blobList, this`blobs, hashTable
      ensures Valid() && fresh(a) && blobs == old(blobs)[scratch := a] && a.expression == None
      ensures fresh(blobs.Values - old(blobs.Values))
    {
      hide Hash, InChain;
      a := new Blob(scratch, isString);
      blobList := [a] + blobList;
      AddHash(a, scratch, blobs);
      blobs := blobs[scratch := a];
    }

    // ---- reading --------------------------------------------------------------------------------

    method Getc() returns (c: Option<char>)
      modifies this`source
      ensures old(source) == "" ==> c == None && source == ""
      ensures old(source) != "" ==> c == Some(old(source)[0]) && source == old(source)[1..]
    {
      if source == "" {
        c := None;
      } else {
        c := Some(source[0]);
        source := source[1..];
      }
    }

    method PurgeLineComment()
      modifies this`source
      ensures source == AfterLine(old(source))
    {
      var c := Getc();
      while c.Some? && c.value != '\n' && c.value != '\r'
        invariant AfterLine(old(source)) == if c.None? then source else AfterLine([c.value] + source)
        invariant c.None? ==> source == ""
        decreases |source| + if c.Some? then 1 else 0
      {
        assert ([c.value] + source)[1..] == source;
        c := Getc();
      }
    }

    method AppendNewline()
      requires Reading()
      modifies this`tokenList
      ensures Reading() && Texts(tokenList) == Texts(old(tokenList)) + Break(old(Quiet())) && Quiet()
    {
      hide Hash, InChain;
      if tokenList != [] && tokenList[|tokenList| - 1].text != NEWLINE {
        TextsAppend(tokenList, newlineBlob);
        tokenList := tokenList + [newlineBlob];
      }
    }

    /** A token for the blob of the text in SCRATCH, which is a new one if need be. */
    method AppendToken()
      requires Reading() && scratch != "" && scratch != NEWLINE
      modifies this`tokenList, this`blobList, this`blobs, hashTable
      ensures Reading() && Texts(tokenList) == Texts(old(tokenList)) + [scratch] && !Quiet()
      ensures fresh(blobs.Values - old(blobs.Values))
    {
      hide Hash, InChain;
      var b := FindBlob();
      if b == null {
        b := NewBlob(IsStr(scratch));
      }
      TextsAppend(tokenList, b);
      tokenList := tokenList + [b];
    }

    /** The loop of store_atom. */
    method CollectAtom(c: char) returns (end: Option<char>, ok: bool)
      requires c !in BLANKS
      modifies this`source, this`scratch
      ensures var u := old(source); var n := Until(u, BLANKS);
        && (ok <==> n + 1 < MAX_STRING)
        && (ok ==> scratch == [c] + u[..n] && source == Behind(u, n) && end == if n < |u| then Some(u[n]) else None)
    {
      hide Until;
      ghost var u := source;
      scratch := "";
      end := Some(c);
      while true
        invariant end.Some? && end.value !in BLANKS && |scratch| < MAX_STRING
        invariant [c] + u == scratch + [end.value] + source
        invariant scratch != "" ==> Clean(scratch[1..], BLANKS)
        decreases |source|
      {
        ghost var before := scratch;
        scratch := scratch + [end.value];
        Longer(before, end.value, BLANKS);
        end := Getc();
        if |scratch| >= MAX_STRING {
          UntilAtLeast(c, u, scratch, BLANKS);
          return end, false;
        }
        if end.None? || end.value in BLANKS {
          break;
        }
      }
      UntilIs(c, u, scratch, BLANKS, if end.Some? then [end.value] + source else "");
      ok := true;
    }

    method StoreAtom(c: char) returns (ok: bool)
      requires Reading() && c !in BLANKS && !IsQuote(c)
      modifies this`source, this`scratch, this`tokenList, this`blobList, this`blobs, hashTable
      ensures var n := Until(old(source), BLANKS); var ended := n < |old(source)| && old(source)[n] == '\n'; var w := [c] + old(source)[..n];
        && (ok <==> n + 1 < MAX_STRING)
        && (ok ==> Reading() && Texts(tokenList) == Texts(old(tokenList)) + ([w] + if ended then [NEWLINE] else [])
                   && source == Behind(old(source), n) && Quiet() == ended)
      ensures fresh(blobs.Values - old(blobs.Values))
    {
      hide Hash, InChain, Interned, Valid, Reading, Until;
      ghost var before := Texts(tokenList);
      var ch, collected := CollectAtom(c);
      ok := collected;
      if !ok { return; }
      assert scratch[0] == c;
      AppendToken();
      if ch == Some('\n') {
        ghost var w := scratch;
        AppendNewline();
        assert before + [w] + [NEWLINE] == before + ([w] + [NEWLINE]);
      } else {
        assert [scratch] + [] == [scratch];
      }
    }

    /** The loop of store_string. */
    method CollectString(c: char) returns (ok: bool)
      modifies this`source, this`scratch
      ensures var u := old(source); var n := Until(u, [c]);
        && (ok <==> n < |u| && n + 1 < MAX_STRING)
        && (ok ==> scratch == [c] + u[..n] && source == u[n + 1..])
    {
      hide Until;
      ghost var u := source;
      scratch := "";
      var ch := c;
      while true
        invariant |scratch| < MAX_STRING && [c] + u == scratch + [ch] + source
        invariant scratch != "" ==> ch != c && Clean(scratch[1..], [c])
        decreases |source|
      {
        ghost var before := scratch;
        scratch := scratch + [ch];
        Longer(before, ch, [c]);
        var next := Getc();
        if next.None? {
          UntilIs(c, u, scratch, [c], "");
          return false;
        }
        if |scratch| == MAX_STRING {
          UntilAtLeast(c, u, scratch, [c]);
          return false;
        }
        ch := next.value;
        if ch == c {
          break;
        }
      }
      UntilIs(c, u, scratch, [c], [ch] + source);
      ok := true;
    }

    method StoreString(c: char) returns (ok: bool)
      requires Reading() && IsQuote(c)
      modifies this`source, this`scratch, this`tokenList, this`blobList, this`blobs, hashTable
      ensures var n := Until(old(source), [c]);
        && (ok <==> n < |old(source)| && n + 1 < MAX_STRING)
        && (ok ==> Reading() && Texts(tokenList) == Texts(old(tokenList)) + [[c] + old(source)[..n]]
                   && source == old(source)[n + 1..] && !Quiet())
      ensures fresh(blobs.Values - old(blobs.Values))
    {
      hide Hash, InChain, Interned, Valid, Reading, Until;
      ok := CollectString(c);
      if ok {
        assert scratch[0] == c;
        AppendToken();
      }
    }

    /** One round of the loop over a file. */
    method TokenizeRound() returns (ok: bool)
      requires Reading() && source != ""
      modifies this`source, this`scratch, this`tokenList, this`blobList, this`blobs, hashTable
      ensures var r := ScanRound(old(source)[0], old(source)[1..], old(Quiet()));
        && (ok <==> r.Some?)
        && (ok ==> Reading() && Texts(tokenList) == Texts(old(tokenList)) + r.value.ws && source == r.value.rest && Quiet() == r.value.quiet)
      ensures fresh(blobs.Values - old(blobs.Values))
    {
      hide Hash, InChain, Interned, Valid, Reading, Until, AfterLine, Behind;
      var c := Getc();
      assert Texts(tokenList) == Texts(tokenList) + [];
      ok := true;
      if c.value in ";#" {
        PurgeLineComment();
        AppendNewline();
      } else if c.value == '\t' || c.value == ' ' {
      } else if c.value == '\n' {
        AppendNewline();
      } else if c.value in "'\"" {
        ok := StoreString(c.value);
      } else {
        ok := StoreAtom(c.value);
      }
    }

    /** Tokenize_Line */
    method TokenizeLine(text: string) returns (ok: bool)
      requires Reading()
      modifies this`source, this`scratch, this`tokenList, this`blobList, this`blobs, hashTable
      ensures var r := Scan(text, old(Quiet()));
        && (ok <==> r.Some?)
        && (ok ==> Reading() && Texts(tokenList) == Texts(old(tokenList)) + r.value && Quiet())
      ensures fresh(blobs.Values - old(blobs.Values))
    {
      hide Hash, InChain, Interned, Valid, Reading, ScanRound;
      ghost var all := Prepend(Texts(tokenList), Scan(text, Quiet()));
      source := text;
      while source != ""
        invariant Reading() && Prepend(Texts(tokenList), Scan(source, Quiet())) == all
        invariant fresh(blobs.Values - old(blobs.Values))
        decreases |source|
      {
        ghost var r := ScanRound(source[0], source[1..], Quiet());
        ghost var before := Texts(tokenList);
        ok := TokenizeRound();
        if !ok { return; }
        PrependConcat(before, r.value.ws, Scan(source, Quiet()));
      }
      AppendNewline();
      ok := true;
    }

    // ---- the passes over tokens and blobs ---------------------------------------------------------

    /** The definitions met so far are in the blobs of their names. */
    ghost predicate Expanded(defs: map<string, string>)
      reads this`blobs, blobs.Values
    {
      forall s :: s in blobs && s != NEWLINE ==> blobs[s].expression == AfterMacros(defs, s)
    }

    /** line_macro: the three tokens of a definition become a newline. */
    method LineMacro() returns (ok: bool, ghost defs: map<string, string>)
      requires Valid() && Expanded(map[])
      modifies this`tokenList, blobs.Values
      ensures var r := Define(Texts(old(tokenList)), map[]);
        && (ok <==> r.Some?)
        && (ok ==> Valid() && Texts(tokenList) == r.value.stream && defs == r.value.defs && Expanded(defs))
    {
      hide Chained, Listed, Define, InFront, Texts;
      ghost var all := Define(Texts(tokenList), map[]);
      defs := map[];
      var i := 0;
      assert all == InFront([], all) by { NothingInFront(all); }
      while i < |tokenList|
        invariant i <= |tokenList| && Valid() && Expanded(defs)
        invariant InFront(Texts(tokenList[..i]), Define(Texts(tokenList[i..]), defs)) == all
        decreases |tokenList| - i
      {
        TextsRest(tokenList, i);
        DefineStep(Texts(tokenList[..i]), Texts(tokenList[i..]), defs);
        if tokenList[i] == defineBlob {
          if i + 2 >= |tokenList| {
            return false, defs;
          }
          var name, value := tokenList[i + 1], tokenList[i + 2];
          name.expression := Some(if value.isString then value.text[1..] else value.text);
          defs := defs[name.text := Value(value.text)];
          TextsReplaced(tokenList[..i], newlineBlob, tokenList[i + 3..]);
          tokenList := tokenList[..i] + [newlineBlob] + tokenList[i + 3..];
        }
        i := i + 1;
      }
      NothingLeft(tokenList, defs);
      ok := true;
    }

    /** Blobs are done up to position j of the list. */
    ghost predicate Done(b: Blob, j: nat)
      requires j <= |blobList|
      reads this`blobList
    {
      b in blobList[..j]
    }

    lemma DoneNext(j: nat)
      requires Interned() && j < |blobList|
      ensures forall b: Blob :: Done(b, j + 1) <==> Done(b, j) || b == blobList[j]
      ensures !Done(blobList[j], j) && blobList[j].text in blobs && blobs[blobList[j].text] == blobList[j]
      ensures forall s :: s in blobs && blobs[s] == blobList[j] ==> s == blobList[j].text
    {
      forall b: Blob
        ensures Done(b, j + 1) <==> Done(b, j) || b == blobList[j]
      {
        assert blobList[..j + 1] == blobList[..j] + [blobList[j]];
      }
    }

    lemma AllDone()
      requires Interned()
      ensures forall s :: s in blobs ==> Done(blobs[s], |blobList|) && !Done(blobs[s], 0)
    {
      assert blobList[..|blobList|] == blobList;
    }

    method HexifyString(p: Blob)
      requires p.text != ""
      modifies p
      ensures p.expression == Some(Hexified(mode, p.text[1..]))
    {
      hide Digits;
      var d := "";
      var k := 0;
      while k < |p.text|
        invariant k <= |p.text|
        invariant d + (if k < |p.text| then Hexified(mode, p.text[k + 1..]) else "") == Hexified(mode, p.text[1..])
      {
        ghost var before, later := d, if k + 1 < |p.text| then Hexified(mode, p.text[k + 2..]) else "";
        HexifiedAt(mode, p.text, k + 1);
        k := k + 1;
        var c := if k < |p.text| then p.text[k] as int else 0;
        d := d + (Digits(mode, c, Group(mode)) + " ");
        assert before + (Digits(mode, c, Group(mode)) + " " + later) == d + later;
      }
      assert d + "" == d;
      p.expression := Some(d);
    }

    method ProcessString(ghost defs: map<string, string>)
      requires Interned() && Expanded(defs)
      modifies blobs.Values
      ensures forall s :: s in blobs && s != NEWLINE ==> blobs[s].expression == AfterStrings(mode, defs, s)
    {
      hide Chained, Listed, Hexified;
      AllDone();
      var j := 0;
      while j < |blobList|
        invariant j <= |blobList|
        invariant forall s :: s in blobs && s != NEWLINE ==>
          blobs[s].expression == if Done(blobs[s], j) then AfterStrings(mode, defs, s) else AfterMacros(defs, s)
      {
        DoneNext(j);
        var i := blobList[j];
        if i.isString {
          if i.text[0] == '\'' {
            i.expression := Some(i.text[1..]);
          } else if i.text[0] == '"' {
            HexifyString(i);
          }
        }
        j := j + 1;
      }
    }

    method EvalImmediates(ghost defs: map<string, string>) returns (ok: bool)
      requires Interned() && forall s :: s in blobs && s != NEWLINE ==> blobs[s].expression == AfterStrings(mode, defs, s)
      modifies blobs.Values
      ensures ok <==> forall s :: s in blobs && s != NEWLINE ==> !FailsNumber(mode, bigEndian, defs, s)
      ensures ok ==> forall s :: s in blobs && s != NEWLINE ==> blobs[s].expression == AfterImmediates(mode, bigEndian, defs, s)
    {
      hide Chained, Listed, AfterStrings, Immediate, IsNumber, StrToInt;
      AllDone();
      var j := 0;
      while j < |blobList|
        invariant j <= |blobList|
        invariant forall s :: s in blobs && s != NEWLINE ==>
          blobs[s].expression == if Done(blobs[s], j) then AfterImmediates(mode, bigEndian, defs, s) else AfterStrings(mode, defs, s)
        invariant forall s :: s in blobs && s != NEWLINE && Done(blobs[s], j) ==> !FailsNumber(mode, bigEndian, defs, s)
      {
        DoneNext(j);
        var i := blobList[j];
        if i != newlineBlob && i.text[0] != '<' && i.expression == None && i.text[0] in POINTERS {
          var value := StrToInt(i.text[1..]);
          if IsNumber(i.text[1..]) {
            var e := ExpressNumber(mode, bigEndian, value, i.text[0]);
            if e == None {
              return false;
            }
            i.expression := e;
          }
        }
        j := j + 1;
      }
      ok := true;
    }

    method PreserveOther(ghost defs: map<string, string>) returns (ok: bool)
      requires Interned() && forall s :: s in blobs && s != NEWLINE ==> blobs[s].expression == AfterImmediates(mode, bigEndian, defs, s)
      requires forall s :: s in blobs && s != NEWLINE ==> !FailsNumber(mode, bigEndian, defs, s)
      modifies blobs.Values
      ensures ok <==> forall s :: s in blobs && s != NEWLINE ==> !FailsPadding(mode, defs, s)
      ensures ok ==> forall s :: s in blobs && s != NEWLINE ==> blobs[s].expression == AfterOthers(mode, bigEndian, defs, s)
    {
      hide Chained, Listed, AfterStrings, AfterImmediates, AfterOthers, FailsNumber, StrToInt;
      AllDone();
      var j := 0;
      while j < |blobList|
        invariant j <= |blobList|
        invariant forall s :: s in blobs && s != NEWLINE ==>
          blobs[s].expression == if Done(blobs[s], j) then AfterOthers(mode, bigEndian, defs, s) else AfterImmediates(mode, bigEndian, defs, s)
        invariant forall s :: s in blobs && s != NEWLINE && Done(blobs[s], j) ==> !FailsPadding(mode, defs, s)
      {
        DoneNext(j);
        var i := blobList[j];
        if i != newlineBlob {
          OthersLast(mode, bigEndian, defs, i.text);
          NoImmediate(mode, bigEndian, defs, i.text);
          if i.expression == None {
            var c := i.text[0];
            if c in "!@$~%&:^" {
              i.expression := Some(i.text);
            } else if c == '<' {
              var size := StrToInt(i.text[1..]);
              if size < 0 {
                return false;
              }
              i.expression := Some(if size == 0 then i.text else Padding(mode, size));
            }
          }
        }
        j := j + 1;
      }
      ok := true;
    }

    /** print_hex */
    method PrintHex(ghost defs: map<string, string>) returns (r: Option<string>)
      requires Valid() && Quiet() && "" !in Texts(tokenList)
      requires forall s :: s in blobs && s != NEWLINE ==> blobs[s].expression == AfterOthers(mode, bigEndian, defs, s)
      ensures r == Print(mode, bigEndian, Texts(tokenList), defs)
    {
      hide Chained, Listed, AfterOthers, Print;
      ghost var all := Print(mode, bigEndian, Texts(tokenList), defs);
      var out := "";
      var k := 0;
      NothingPrinted(mode, bigEndian, Texts(tokenList), defs);
      while k < |tokenList|
        invariant k <= |tokenList| && After(out, Print(mode, bigEndian, Texts(tokenList)[k..], defs)) == all
      {
        var i := tokenList[k];
        ghost var ws, rest := Texts(tokenList), Print(mode, bigEndian, Texts(tokenList)[k + 1..], defs);
        PrintStep(mode, bigEndian, ws, defs, k, out);
        assert out + "" == out && (i.expression.Some? ==> out + i.expression.value + "" == out + i.expression.value);
        assert ws[k] == i.text && (k + 1 < |ws| ==> (ws[k + 1] == NEWLINE <==> tokenList[k + 1] == newlineBlob));
        if i == newlineBlob {
          if k + 1 == |tokenList| {
            out := out + "\n";
          } else if tokenList[k + 1] != newlineBlob {
            out := out + "\n";
          }
        } else if i.expression.Some? {
          out := out + i.expression.value;
          if tokenList[k + 1] != newlineBlob {
            out := out + " ";
          }
        } else {
          return None;
        }
        k := k + 1;
      }
      r := Some(out);
    }

    /** No blob makes M1 exit. */
    ghost predicate BlobsUsable(defs: map<string, string>)
      requires Named()
      reads this`blobs
    {
      forall s :: s in blobs && s != NEWLINE ==> !Express(mode, bigEndian, s, defs).Fails?
    }

    /** The passes over blobs and the printing. */
    method Evaluate(ghost defs: map<string, string>) returns (r: Option<string>)
      requires Valid() && Expanded(defs) && Quiet() && "" !in Texts(tokenList)
      modifies blobs.Values
      ensures r == if BlobsUsable(defs) then Print(mode, bigEndian, Texts(tokenList), defs) else None
    {
      hide Chained, Listed, AfterStrings, AfterImmediates, AfterOthers, AfterMacros, Express, Print, Texts, FailsNumber, FailsPadding;
      r := None;
      forall s | s in blobs
        ensures Express(mode, bigEndian, s, defs).Fails? <==> FailsNumber(mode, bigEndian, defs, s) || FailsPadding(mode, defs, s)
      {
        FailsEither(mode, bigEndian, defs, s);
      }
      ProcessString(defs);
      var ok := EvalImmediates(defs);
      if !ok { return; }
      ok := PreserveOther(defs);
      if !ok { return; }
      r := PrintHex(defs);
    }

    /** Every blob but that of DEFINE and that of the newline has a token. */
    lemma UsableTokens(ws: seq<string>, defs: map<string, string>)
      requires Named() && "" !in ws && (forall w :: w in ws ==> w in blobs) && forall s :: s in blobs ==> s in ws || s == DEFINE || s == NEWLINE
      ensures Usable(mode, bigEndian, ws, defs) <==> BlobsUsable(defs)
    {
      assert !Express(mode, bigEndian, DEFINE, defs).Fails?;
      hide Express;
    }

    /** The passes of main over the input files. */
    method Run(files: seq<string>) returns (r: Option<string>)
      requires Reading() && tokenList == []
      modifies this`source, this`scratch, this`tokenList, this`blobList, this`blobs, hashTable, blobs.Values
      ensures r == Assemble(mode, bigEndian, files)
    {
      hide Chained, Listed, Scan, Define, Print, Express, Texts, Usable, BlobsUsable;
      r := None;
      ScanAllNonEmpty(files);
      var ok := ReadFiles(files);
      if !ok || tokenList == [] { return; }
      ghost var ws := Texts(tokenList);
      DefineNonEmpty(ws, map[]);
      DefineEnds(ws, map[]);
      TokensKnown();
      ghost var defs;
      ok, defs := LineMacro();
      if !ok { return; }
      UsableTokens(ws, defs);
      r := Evaluate(defs);
    }

    lemma TokensKnown()
      requires Reading()
      ensures (forall w :: w in Texts(tokenList) ==> w in blobs) && forall s :: s in blobs ==> s in Texts(tokenList) || s == DEFINE || s == NEWLINE
      ensures Expanded(map[]) && (Quiet() <==> Ended(Texts(tokenList)))
    {
    }

    method ReadFiles(files: seq<string>) returns (ok: bool)
      requires Reading() && tokenList == []
      modifies this`source, this`scratch, this`tokenList, this`blobList, this`blobs, hashTable
      ensures var r := ScanAll(files); (ok <==> r.Some?) && (ok ==> Reading() && Texts(tokenList) == r.value && Quiet())
      ensures fresh(blobs.Values - old(blobs.Values))
    {
      hide Reading, Scan;
      ghost var all := ScanAll(files);
      assert Texts(tokenList) == [];
      var k := 0;
      while k < |files|
        invariant fresh(blobs.Values - old(blobs.Values))
        invariant k <= |files| && Reading() && Quiet() && ScanAll(files[..k]) == Some(Texts(tokenList))
      {
        assert files[..k + 1][..k] == files[..k];
        ok := TokenizeLine(files[k]);
        if !ok {
          ScanFails(files, k + 1);
          return;
        }
        k := k + 1;
      }
      assert files[..k] == files;
      ok := true;
    }
  }
}
