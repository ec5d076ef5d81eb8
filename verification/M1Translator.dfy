/** m1-to-hex2.c as it runs: one character at a time, with the address and the output as its state. A
    method that returns false has called exit. */
module M1Translator {
  import opened Wrappers
  import opened Hex2Text
  import opened Hex2Link
  import opened HexWords
  import opened M1ToHex2
  import opened M1Seams

  /** data_vmaddr after the tokens. */
  function DataAddress(o: Options, ts: seq<string>, address: nat, v: nat): nat
    requires AreTokens(ts)
    decreases |ts|
  {
    if ts == [] then v
    else
      assert IsToken(ts[0]);
      DataAddress(o, ts[1..], Aligned(o, ts[0], address).GetOr(address) + TokenWidth(ts[0]),
                  if o.autoData && DefinesName(ts[0], DataLabel()) then RoundedUp(address) else v)
  }

  /** What is reported is where the one label ELF_data goes. */
  lemma {:induction false} DataReported(o: Options, ts: seq<string>, address: nat, v: nat, k: nat)
    requires AreTokens(ts) && o.autoData && k < |ts| && DefinesName(ts[k], DataLabel())
    requires forall j :: k < j < |ts| ==> !DefinesName(ts[j], DataLabel())
    ensures AreTokens(ts[..k]) && DataAddress(o, ts, address, v) == RoundedUp(EndAddress(o, ts[..k], address))
    decreases k
  {
    hide IsToken, Aligned, TokenWidth, RoundedUp, DefinesName, DataLabel;
    var t, rest := ts[0], ts[1..];
    TokenStarts(t) by { assert t in ts; }
    var a := Aligned(o, t, address).GetOr(address) + TokenWidth(t);
    if k == 0 {
      assert ts[..0] == [];
      DataKept(o, rest, a, RoundedUp(address));
    } else {
      assert ts[..k][0] == t && ts[..k][1..] == rest[..k - 1] && rest[k - 1] == ts[k];
      assert forall j :: k - 1 < j < |rest| ==> rest[j] == ts[j + 1];
      DataReported(o, rest, a, if DefinesName(t, DataLabel()) then RoundedUp(address) else v, k - 1);
    }
  }

  lemma {:induction false} DataKept(o: Options, ts: seq<string>, address: nat, v: nat)
    requires AreTokens(ts) && forall t :: t in ts ==> !DefinesName(t, DataLabel())
    ensures DataAddress(o, ts, address, v) == v
    decreases |ts|
  {
    hide IsToken, Aligned, TokenWidth, RoundedUp, DefinesName, DataLabel;
    if ts != [] {
      TokenStarts(ts[0]) by { assert ts[0] in ts; }
      DataKept(o, ts[1..], Aligned(o, ts[0], address).GetOr(address) + TokenWidth(ts[0]), v);
    }
  }

  function InFront(a: seq<Item>, r: Option<seq<Item>>): Option<seq<Item>> {
    if r.Some? then Some(a + r.value) else None
  }

  /** One token in front of others. */
  lemma LayoutCons(o: Options, t: string, ts: seq<string>, address: nat)
    requires IsToken(t) && AreTokens(ts) && AreTokens([t] + ts) && t != ""
    ensures var a := Aligned(o, t, address);
      && Layout(o, [t] + ts, address) ==
           (if a.None? then None else InFront(ZeroItems(a.value - address) + TokenItems(t), Layout(o, ts, a.value + TokenWidth(t))))
      && EndAddress(o, [t] + ts, address) == EndAddress(o, ts, a.GetOr(address) + TokenWidth(t))
      && forall v: nat :: DataAddress(o, [t] + ts, address, v) ==
           DataAddress(o, ts, a.GetOr(address) + TokenWidth(t), if o.autoData && DefinesName(t, DataLabel()) then RoundedUp(address) else v)
  {
    hide IsToken, Aligned, TokenWidth, RoundedUp, DefinesName, DataLabel, ZeroItems, TokenItems;
    assert ([t] + ts)[1..] == ts;
  }

  /** What is behind the tokens that are finished. */
  lemma SplitStep(c: char, u: string, tok: string)
    ensures IsBlank(c) ==> Split([c] + u, tok) == Ended(tok) + Split(u, "")
    ensures !IsBlank(c) ==> Split([c] + u, tok) == Split(u, tok + [c])
  {
    assert ([c] + u)[1..] == u;
  }

  lemma Shape(t: string)
    ensures |t| == 5 ==> (t[..3] == "!0x" <==> t[0] == '!' && t[1] == '0' && t[2] == 'x')
  {
    if |t| == 5 {
      assert t[..3] == [t[0], t[1], t[2]];
    }
  }

  /** What the translator comes to: the items of its output, its address, and data_vmaddr. */
  datatype Outcome = Outcome(items: seq<Item>, end: nat, data: nat)

  function From(o: Options, items: seq<Item>, ts: seq<string>, address: nat, v: nat): Option<Outcome>
    requires AreTokens(ts)
  {
    match Layout(o, ts, address)
    case None => None
    case Some(l) => Some(Outcome(items + l, EndAddress(o, ts, address), DataAddress(o, ts, address, v)))
  }

  lemma FromToken(o: Options, items: seq<Item>, t: string, ts: seq<string>, address: nat, v: nat)
    requires IsToken(t) && AreTokens(ts) && AreTokens([t] + ts) && t != ""
    ensures var a := Aligned(o, t, address);
      From(o, items, [t] + ts, address, v) ==
        if a.None? then None
        else From(o, items + (ZeroItems(a.value - address) + TokenItems(t)), ts, a.value + TokenWidth(t),
                  if o.autoData && DefinesName(t, DataLabel()) then RoundedUp(address) else v)
  {
    hide Layout, EndAddress, DataAddress, IsToken, AreTokens, Aligned, TokenWidth, RoundedUp, DefinesName, DataLabel, ZeroItems, TokenItems;
    LayoutCons(o, t, ts, address);
    var a := Aligned(o, t, address);
    if a.Some? && Layout(o, ts, a.value + TokenWidth(t)).Some? {
      JoinItems(items, ZeroItems(a.value - address) + TokenItems(t), Layout(o, ts, a.value + TokenWidth(t)).value);
    }
  }

  lemma FromNothing(o: Options, items: seq<Item>, address: nat, v: nat)
    ensures From(o, items, [], address, v) == Some(Outcome(items, address, v))
  {
    assert items + [] == items;
  }

  lemma FromStart(o: Options, items: seq<Item>, ts: seq<string>, address: nat, v: nat)
    requires AreTokens(ts)
    ensures From(o, items, ts, address, v).Some? <==> Layout(o, ts, address).Some?
    ensures From(o, items, ts, address, v).Some? ==>
      From(o, items, ts, address, v).value == Outcome(items + Layout(o, ts, address).value, EndAddress(o, ts, address), DataAddress(o, ts, address, v))
  {
  }

  class Translator {
    const options: Options
    var output: string
    var address: nat
    var dataVmaddr: nat
    /** What the output stands for, and how it ends. */
    ghost var items: seq<Item>
    ghost var tie: Tie

    constructor (options: Options, baseAddress: nat)
      ensures Valid() && this.options == options && output == "" && items == [] && tie == Free && address == baseAddress && dataVmaddr == 0
    {
      this.options, output, address, dataVmaddr, items, tie := options, "", baseAddress, 0, [], Free;
      new;
      ReadsNothing();
    }

    ghost predicate Valid()
      reads this`output, this`items, this`tie
    {
      Stands(tie, output, items)
    }

    /** 1 plus the address a label has to go to, or nothing positive. */
    method AlignLookup(name: string) returns (r: int)
      modifies this`dataVmaddr
      ensures r > 0 <==> Goal(options, name, address).Some?
      ensures r > 0 ==> r - 1 == Goal(options, name, address).value
      ensures dataVmaddr == if options.autoData && name == DataLabel() then RoundedUp(address) else old(dataVmaddr)
    {
      hide DataLabel;
      if options.autoData {
        if name == DataLabel() {
          dataVmaddr := (address + 0xFFFF) / PAGE * PAGE;
          return 1 + dataVmaddr;
        }
      }
      var aligns := options.aligns;
      var i := 0;
      assert aligns[0..] == aligns;
      while i < |aligns|
        invariant i <= |aligns| && FirstAlign(aligns[i..], name) == FirstAlign(aligns, name)
      {
        if aligns[i].name == name {
          return 1 + aligns[i].value;
        }
        i := i + 1;
      }
      r := 0;
    }

    method PutSpace(c: char)
      requires Valid() && IsSpace(c)
      modifies this`output, this`tie
      ensures Valid() && output == old(output) + [c] && tie == Spaced(old(tie))
    {
      hide Stands;
      StandsSpace(tie, output, items, c);
      output := output + [c];
      tie := Spaced(tie);
    }

    method PutZero()
      requires Valid()
      modifies this`output, this`items, this`tie
      ensures Valid() && output == old(output) + "00" && items == old(items) + [Digit(0), Digit(0)] && tie == Touched(old(tie))
    {
      hide Stands;
      ReadsDigits('0', '0');
      StandsText(tie, output, items, "00", [Digit(0), Digit(0)]);
      output := output + "00";
      items := items + [Digit(0), Digit(0)];
      tie := Touched(tie);
    }

    method WritePadding(target: nat) returns (ok: bool)
      requires Valid()
      modifies this`output, this`items, this`tie, this`address
      ensures ok <==> old(address) <= target
      ensures ok ==> Valid() && address == target && items == old(items) + ZeroItems(target - old(address))
                     && tie == if target == old(address) then old(tie) else Touched(old(tie))
    {
      hide Stands;
      if address > target {
        return false;
      }
      var lineCount := 0;
      ghost var from := address;
      assert ZeroItems(0) == [] && items + [] == items;
      while address < target
        invariant from <= address <= target && Valid() && items == old(items) + ZeroItems(address - from)
        invariant tie == if address == from then old(tie) else Touched(old(tie))
        invariant lineCount > 0 ==> address > from
      {
        if lineCount > 0 {
          PutSpace(' ');
        }
        PutZero();
        ZeroNext(address - from);
        JoinItems(old(items), ZeroItems(address - from), [Digit(0), Digit(0)]);
        address := address + 1;
        lineCount := lineCount + 1;
        if lineCount == 16 {
          PutSpace('\n');
          lineCount := 0;
        }
      }
      if lineCount > 0 {
        PutSpace('\n');
      }
      ok := true;
    }

    method EmitToken(t: string)
      modifies this`output
      ensures output == old(output) + Emitted(t)
    {
      Shape(t);
      if |t| == 5 && t[0] == '!' && t[1] == '0' && t[2] == 'x' {
        output := output + [Upper(t[3])];
        output := output + [Upper(t[4])];
        assert old(output) + [Upper(t[3])] + [Upper(t[4])] == old(output) + Emitted(t);
      } else {
        output := output + t;
      }
    }

    /** What is done when a token is complete. */
    method FlushToken(tok: string, lineHasToken: bool) returns (ok: bool)
      requires Valid() && IsToken(tok) && tok != ""
      modifies this`output, this`items, this`tie, this`address, this`dataVmaddr
      ensures var a := Aligned(options, tok, old(address));
        && (ok <==> a.Some?)
        && (ok ==> Valid() && address == a.value + TokenWidth(tok) && tie == TokenTie(old(tie), lineHasToken, tok)
                   && items == old(items) + (ZeroItems(a.value - old(address)) + TokenItems(tok)))
      ensures dataVmaddr == if options.autoData && DefinesName(tok, DataLabel()) then RoundedUp(old(address)) else old(dataVmaddr)
    {
      hide Stands, TokenItems, IsToken, RoundedUp, DataLabel, Goal, Emitted, IsNamed;
      var open := lineHasToken;
      assert ZeroItems(0) == [] && items + [] == items;
      assert forall xs: seq<Item> :: [] + xs == xs;
      NameOf(tok);
      if tok[0] == ':' {
        var target := AlignLookup(tok[1..]);
        if target > 0 {
          if open {
            PutSpace('\n');
          }
          ok := WritePadding(target - 1);
          if !ok { return; }
          open := false;
        }
      }
      if open {
        PutSpace(' ');
      }
      StandsToken(tie, output, items, tok);
      EmitToken(tok);
      items := items + TokenItems(tok);
      tie := Written(tie, IsNamed(tok));
      address := address + TokenWidth(tok);
      ok := true;
    }

    /** process_file */
    method ProcessFile(text: string) returns (ok: bool)
      requires Valid() && AreTokens(Split(text, ""))
      modifies this`output, this`items, this`tie, this`address, this`dataVmaddr
      ensures var ts := Split(text, ""); var l := Layout(options, ts, old(address));
        && (ok <==> l.Some?)
        && (ok ==> Valid() && tie == TieAfter(text, "", false, old(tie)) && items == old(items) + l.value
                   && address == EndAddress(options, ts, old(address))
                   && dataVmaddr == DataAddress(options, ts, old(address), old(dataVmaddr)))
    {
      hide Stands, Layout, EndAddress, DataAddress, From, IsToken, IsNamed, Split, AreTokens, TieAfter, DefinesName, DataLabel, RoundedUp,
           Aligned, TokenItems, ZeroItems, TokenWidth, TokenTie, Spaced;
      FromStart(options, items, Split(text, ""), address, dataVmaddr);
      ghost var all := From(options, items, Split(text, ""), address, dataVmaddr);
      var tok := "";
      var lineHasToken := false;
      var k := 0;
      assert text[0..] == text;
      while k < |text|
        invariant k <= |text| && Valid() && AreTokens(Split(text[k..], tok))
        invariant From(options, items, Split(text[k..], tok), address, dataVmaddr) == all
        invariant TieAfter(text[k..], tok, lineHasToken, tie) == TieAfter(text, "", false, old(tie))
      {
        var c := text[k];
        ghost var u := text[k + 1..];
        assert text[k..] == [c] + u;
        SplitStep(c, u, tok);
        TieStep(c, u, tok, lineHasToken, tie);
        if IsBlank(c) {
          EndedFirst(tok, Split(u, ""));
          if |tok| > 0 {
            FromToken(options, items, tok, Split(u, ""), address, dataVmaddr);
            ok := FlushToken(tok, lineHasToken);
            if !ok { return; }
            lineHasToken := true;
            tok := "";
          }
          if c == '\n' {
            PutSpace('\n');
            lineHasToken := false;
          }
        } else {
          tok := tok + [c];
        }
        k := k + 1;
      }
      assert text[k..] == "";
      NothingToSplit(tok, lineHasToken, tie);
      EndedFirst(tok, []);
      if |tok| > 0 {
        FromToken(options, items, tok, [], address, dataVmaddr);
        ok := FlushToken(tok, lineHasToken);
        if !ok { return; }
        PutSpace('\n');
      }
      FromNothing(options, items, address, dataVmaddr);
      ok := true;
    }

    /** main for the input files: the addresses are those of the layout of all tokens, and the text reads
        as that layout exactly if no file clings to the next. */
    method Translate(files: seq<string>) returns (ok: bool)
      requires Valid() && items == [] && tie == Free && AreTokens(AllTokens(files))
      modifies this`output, this`items, this`tie, this`address, this`dataVmaddr
      ensures var ts := AllTokens(files); var l := Layout(options, ts, old(address));
        && (ok <==> files != [] && l.Some?)
        && (ok ==> (ReadsAs(output, l.value) <==> !Clings(files)) && address == EndAddress(options, ts, old(address))
                   && dataVmaddr == DataAddress(options, ts, old(address), old(dataVmaddr)))
    {
      hide Stands, ReadsAs, Layout, EndAddress, DataAddress, From, IsToken, Split, AreTokens, TieAfter, AllTokens, Clings;
      if files == [] {
        return false;
      }
      FromStart(options, items, AllTokens(files), address, dataVmaddr);
      ghost var all := From(options, items, AllTokens(files), address, dataVmaddr);
      var i := 0;
      assert files[0..] == files;
      while i < |files|
        invariant i <= |files| && AreTokens(AllTokens(files[i..])) && Valid()
        invariant From(options, items, AllTokens(files[i..]), address, dataVmaddr) == all
        invariant TieFiles(files[i..], tie) == TieFiles(files, Free)
      {
        FirstTokens(files, i);
        ghost var ts, us := Split(files[i], ""), AllTokens(files[i + 1..]);
        FromJoin(options, items, ts, us, address, dataVmaddr);
        ok := ProcessFile(files[i]);
        if !ok { return; }
        assert files[i..][1..] == files[i + 1..];
        i := i + 1;
      }
      assert files[i..] == [];
      NoFiles();
      FromNothing(options, items, address, dataVmaddr);
      ghost var l := Layout(options, AllTokens(files), old(address)).value;
      assert items == [] + l == l;
      FilesTie(files, Free);
      StandsWhole(tie, output, items);
      ok := true;
    }
  }

  function AllTokens(files: seq<string>): seq<string> {
    if files == [] then [] else Split(files[0], "") + AllTokens(files[1..])
  }

  lemma NoFiles()
    ensures AllTokens([]) == [] && AreTokens([])
  {
  }

  lemma FirstTokens(files: seq<string>, i: nat)
    requires i < |files| && AreTokens(AllTokens(files[i..]))
    ensures AllTokens(files[i..]) == Split(files[i], "") + AllTokens(files[i + 1..])
    ensures AreTokens(Split(files[i], "")) && AreTokens(AllTokens(files[i + 1..]))
  {
    hide Split, IsToken;
    assert files[i..][1..] == files[i + 1..];
    var ts, us := Split(files[i], ""), AllTokens(files[i + 1..]);
    assert AllTokens(files[i..]) == ts + us;
    assert forall t :: t in ts || t in us ==> t in ts + us;
  }

  /** First the tokens of one file, then the others. */
  lemma {:induction false} FromJoin(o: Options, items: seq<Item>, ts: seq<string>, us: seq<string>, address: nat, v: nat)
    requires AreTokens(ts) && AreTokens(us) && AreTokens(ts + us)
    ensures From(o, items, ts + us, address, v) ==
      match Layout(o, ts, address)
      case None => None
      case Some(l) => From(o, items + l, us, EndAddress(o, ts, address), DataAddress(o, ts, address, v))
    decreases |ts|
  {
    hide IsToken, Aligned, TokenWidth, RoundedUp, DefinesName, DataLabel, ZeroItems, TokenItems, From;
    if ts == [] {
      assert ts + us == us && items + [] == items;
    } else {
      var t, rest := ts[0], ts[1..];
      assert t in ts && IsToken(t);
      TokenStarts(t);
      assert ts + us == [t] + (rest + us) && ts == [t] + rest;
      FromToken(o, items, t, rest + us, address, v);
      var a := Aligned(o, t, address);
      if a.Some? {
        var here := ZeroItems(a.value - address) + TokenItems(t);
        FromJoin(o, items + here, rest, us, a.value + TokenWidth(t), if o.autoData && DefinesName(t, DataLabel()) then RoundedUp(address) else v);
        var l := Layout(o, rest, a.value + TokenWidth(t));
        if l.Some? {
          JoinItems(items, here, l.value);
        }
      }
    }
  }

  /** What hex2 makes of the translated text from the same base: its first pass ends at the reported
      end, and its bytes are those of the tokens and the padding. */
  lemma TranslationLinked(o: Options, ts: seq<string>, base: nat, text: string, big: bool)
    requires AreTokens(ts) && Layout(o, ts, base).Some? && ReadsAs(text, Layout(o, ts, base).value)
    ensures var items := LexAll(false, Hex, [text]);
      && MoveAll(Hex, Place(base, 0), items) == Place(EndAddress(o, ts, base), 0)
      && Link(Hex, big, base, items) == Link(Hex, big, base, Layout(o, ts, base).value)
  {
    hide Layout, ReadsAs, EndAddress, MoveAll, Link, LexAll;
    ReadsLink(big, base, text, Layout(o, ts, base).value);
    AddressesAgree(o, ts, base);
  }

  /** The reported data address is the one hex2 gives to the only ELF_data of the translated text: the
      least multiple of the page size at or above the end of the code before it, which the padding of
      zeros fills up; all the rest is the tokens. */
  lemma DataLinked(o: Options, ts: seq<string>, base: nat, text: string, k: nat)
    requires AreTokens(ts) && o.autoData && o.aligns == [] && k < |ts| && DefinesName(ts[k], DataLabel())
    requires forall j :: 0 <= j < |ts| && j != k ==> !DefinesName(ts[j], DataLabel())
    requires Layout(o, ts, base).Some? ==> ReadsAs(text, Layout(o, ts, base).value)
    ensures AreTokens(ts[..k]) && AreTokens(ts[k..])
    ensures var v, end := DataAddress(o, ts, base, 0), EndAddress(o, ts[..k], base);
      && v % PAGE == 0 && end <= v < end + PAGE
      && Target(Labels(Hex, Place(base, 0), LexAll(false, Hex, [text])), DataLabel()) == Some(v)
      && ReadsAs(text, AllItems(ts[..k]) + (ZeroItems(v - end) + AllItems(ts[k..])))
  {
    hide Layout, ReadsAs, EndAddress, LexAll, DataLabel, DataAddress, Target, Labels, DefinesName, AllItems, ZeroItems, IsToken;
    DataAligned(o, ts, base, k);
    DataReported(o, ts, base, 0, k);
    ReadsLink(false, base, text, Layout(o, ts, base).value);
  }

  /** One token, the one at k, defines ELF_data. */
  predicate OneData(ts: seq<string>, k: nat) {
    AreTokens(ts) && k < |ts| && DefinesName(ts[k], DataLabel()) && forall j :: 0 <= j < |ts| && j != k ==> !DefinesName(ts[j], DataLabel())
  }

  /** The address hex2 gives to ELF_data and the end of its first pass. */
  predicate LinksData(base: nat, text: string, data: nat, end: nat) {
    var items := LexAll(false, Hex, [text]);
    Target(Labels(Hex, Place(base, 0), items), DataLabel()) == Some(data) && MoveAll(Hex, Place(base, 0), items) == Place(end, 0)
  }

  /** The tokens with zeros in front of the one at k from the end of the code up to data, the least multiple
      of the page size there. */
  predicate IsDataLayout(ts: seq<string>, base: nat, k: nat, data: nat, items: seq<Item>)
    requires OneData(ts, k)
  {
    var code := EndAddress(Options(true, []), ts[..k], base);
    data % PAGE == 0 && code <= data < code + PAGE && items == AllItems(ts[..k]) + (ZeroItems(data - code) + AllItems(ts[k..]))
  }

  /** main: the output, DATA_VMADDR and DATA_END. If the files have one label ELF_data, the output stands for
      the tokens with zeros up to the reported address; it reads so exactly if no file clings to the next,
      and then hex2 gives the label that address and ends its first pass at the reported end. */
  method TranslateData(baseAddress: nat, files: seq<string>, ghost k: nat) returns (text: string, data: nat, end: nat, ghost items: seq<Item>)
    requires OneData(AllTokens(files), k)
    ensures IsDataLayout(AllTokens(files), baseAddress, k, data, items) && (ReadsAs(text, items) <==> !Clings(files))
    ensures !Clings(files) ==> LinksData(baseAddress, text, data, end)
  {
    var o := Options(true, []);
    ghost var ts := AllTokens(files);
    assert ts != [] && AreTokens(ts);
    hide *;
    var m := new Translator(o, baseAddress);
    DataLaidOut(ts, baseAddress, k);
    NoFiles();
    var ok := m.Translate(files);
    text, data, end := m.output, m.dataVmaddr, m.address;
    items := Layout(o, ts, baseAddress).value;
    if !Clings(files) {
      DataReached(ts, baseAddress, k, text);
    }
  }

  lemma DataLaidOut(ts: seq<string>, base: nat, k: nat)
    requires OneData(ts, k)
    ensures var o := Options(true, []); Layout(o, ts, base).Some? && IsDataLayout(ts, base, k, DataAddress(o, ts, base, 0), Layout(o, ts, base).value)
  {
    hide Layout, EndAddress, DataLabel, DataAddress, DefinesName, AllItems, ZeroItems, IsToken, RoundedUp, Target, Labels;
    var o := Options(true, []);
    DataAligned(o, ts, base, k);
    DataReported(o, ts, base, 0, k);
    PageAt(EndAddress(o, ts[..k], base));
  }

  lemma DataReached(ts: seq<string>, base: nat, k: nat, text: string)
    requires OneData(ts, k) && Layout(Options(true, []), ts, base).Some? && ReadsAs(text, Layout(Options(true, []), ts, base).value)
    ensures var o := Options(true, []); LinksData(base, text, DataAddress(o, ts, base, 0), EndAddress(o, ts, base))
  {
    hide Layout, EndAddress, DataLabel, DataAddress, DefinesName, AllItems, ZeroItems, IsToken, Target, Labels, ReadsAs, LexAll, MoveAll;
    DataLinked(Options(true, []), ts, base, text, k);
    TranslationLinked(Options(true, []), ts, base, text, false);
  }

  lemma PageAt(end: nat)
    ensures var v := RoundedUp(end); v % PAGE == 0 && end <= v < end + PAGE
  {
  }

  lemma {:induction false} SplitWord(w: string, u: string, tok: string)
    requires Named(w)
    ensures Split(w + u, tok) == Split(u, tok + w)
    decreases |w|
  {
    if w == "" {
      assert w + u == u && tok + w == tok;
    } else {
      assert w + u == [w[0]] + (w[1..] + u) && tok + w == tok + [w[0]] + w[1..];
      SplitStep(w[0], w[1..] + u, tok);
      SplitWord(w[1..], u, tok + [w[0]]);
    }
  }

  lemma SplitOne(t: string, c: char)
    requires Named(t) && t != "" && IsBlank(c)
    ensures Split(t + [c], "") == [t]
  {
    assert "" + t == t && [t] + [] == [t] && [c] + "" == [c];
    SplitWord(t, [c], "");
    SplitStep(c, "", t);
    assert Split("", "") == [];
  }

  /** The first file ends in a reference and a space, the second begins with the label that has to be
      aligned: the addresses are right and the text is not, from every base. */
  method TornRun(name: string, base: nat) returns (text: string, end: nat)
    requires Named(name) && name != ""
    ensures var ts := [['%'] + name, ":" + DataLabel()]; var o := Options(true, []);
      && AreTokens(ts) && Layout(o, ts, base).Some?
      && end == EndAddress(o, ts, base) == RoundedUp(base + 4) && !ReadsAs(text, Layout(o, ts, base).value)
  {
    hide ReadsAs, Split, Clings, Stands, Layout, EndAddress, RoundedUp, DataLabel, AreTokens, IsNamed;
    var s := ['%'] + name;
    var t := ":" + DataLabel();
    var o := Options(true, []);
    TornLayout(name, base);
    SplitOne(s, ' ');
    SplitOne(t, '\n');
    var files := [s + " ", t + "\n"];
    TwoTokens(files, s, t);
    OneClings(s, t + "\n");
    NoTouch(t + "\n");
    assert (t + "\n")[0] == ':';
    var m := new Translator(o, base);
    var ok := m.Translate(files);
    text, end := m.output, m.address;
  }

  lemma TornLayout(name: string, base: nat)
    requires Named(name) && name != ""
    ensures var s, t := ['%'] + name, ":" + DataLabel(); var o := Options(true, []);
      && Named(s) && Named(t) && IsNamed(s) && t != "" && AreTokens([s, t])
      && Layout(o, [s, t], base).Some? && EndAddress(o, [s, t], base) == RoundedUp(base + 4)
  {
    hide RoundedUp;
    var s, t := ['%'] + name, ":" + DataLabel();
    var o := Options(true, []);
    assert s[1..] == name && t[1..] == DataLabel() && Named(DataLabel());
    assert IsToken(s) && IsToken(t);
    var last: seq<string> := [t];
    assert [s, t][1..] == last && last[1..] == [];
    hide Goal, IsToken, TokenItems, Named, ZeroItems;
    assert Goal(o, DataLabel(), base + 4) == Some(RoundedUp(base + 4));
    assert Layout(o, [t], base + 4).Some? && EndAddress(o, [t], base + 4) == RoundedUp(base + 4);
  }

  lemma TwoTokens(files: seq<string>, s: string, t: string)
    requires |files| == 2 && Split(files[0], "") == [s] && Split(files[1], "") == [t]
    ensures AllTokens(files) == [s, t]
  {
    hide Split;
    assert files[1..] == [files[1]] && [files[1]][1..] == [];
    assert AllTokens([files[1]]) == [t] + [];
    assert [s] + [t] == [s, t];
  }

  lemma TieStep(c: char, u: string, tok: string, line: bool, tie: Tie)
    ensures var here := if tok == "" then tie else TokenTie(tie, line, tok);
      TieAfter([c] + u, tok, line, tie) ==
        if c == '\n' then TieAfter(u, "", false, Spaced(here))
        else if IsBlank(c) then TieAfter(u, "", line || tok != "", here) else TieAfter(u, tok + [c], line, tie)
  {
    hide TokenTie;
    assert ([c] + u)[1..] == u;
  }

  lemma EndedFirst(tok: string, ts: seq<string>)
    requires AreTokens(Ended(tok) + ts)
    ensures AreTokens(ts) && (tok == "" ==> Ended(tok) + ts == ts)
    ensures tok != "" ==> Ended(tok) + ts == [tok] + ts && IsToken(tok) && AreTokens([tok] + ts)
  {
    hide IsToken;
    var all := Ended(tok) + ts;
    assert forall t :: t in ts ==> t in all;
    assert tok != "" ==> tok in all;
    assert [] + ts == ts;
  }

  lemma NothingToSplit(tok: string, line: bool, tie: Tie)
    ensures Split("", tok) == Ended(tok) == Ended(tok) + []
    ensures TieAfter("", tok, line, tie) == if tok == "" then tie else Spaced(TokenTie(tie, line, tok))
  {
    hide TokenTie;
  }

  lemma ZeroNext(n: nat)
    ensures ZeroItems(n + 1) == ZeroItems(n) + [Digit(0), Digit(0)]
  {
    if n == 0 {
      assert ZeroItems(1) == [Digit(0), Digit(0)] + [];
    } else {
      ZeroNext(n - 1);
      JoinItems([Digit(0), Digit(0)], ZeroItems(n - 1), [Digit(0), Digit(0)]);
    }
  }

  lemma NameOf(t: string)
    requires t != ""
    ensures DefinesName(t, DataLabel()) <==> t[0] == ':' && t[1..] == DataLabel()
  {
    hide DataLabel;
    if t[0] == ':' {
      assert t == ":" + t[1..];
    }
    assert (":" + DataLabel())[1..] == DataLabel();
  }
}
