/** The tables that hex2-data-relocs builds from the source of a linked program. */
module RelocSpec {
  import opened Wrappers
  import opened Hex2Text

  const BASE := 0x60_0000
  const ENTRY_OFFSET := 0x400
  const DATA_FILE_OFFSET := 0x80_0000
  const DATA_VM := 0xE0_0000

  // ---- tokens -------------------------------------------------------------------------------

  predicate IsBlank(c: char) {
    c == ' ' || c == '\t' || c == '\n' || c == '\r'
  }

  function Flush(tok: string): seq<string> {
    if tok == "" then [] else [tok]
  }

  /** The tokens of t, behind the token tok that has begun; comment says that t starts in one. */
  function Tokens(t: string, tok: string, comment: bool): seq<string>
    decreases |t|
  {
    if t == "" then Flush(tok)
    else if comment then Tokens(t[1..], tok, t[0] != '\n')
    else if t[0] == '#' then Flush(tok) + Tokens(t[1..], "", true)
    else if IsBlank(t[0]) then Flush(tok) + Tokens(t[1..], "", false)
    else Tokens(t[1..], tok + [t[0]], false)
  }

  predicate AllHex(s: string) {
    forall k :: 0 <= k < |s| ==> DigitOf(Hex, s[k]) >= 0
  }

  predicate AllDecimal(s: string) {
    forall k :: 0 <= k < |s| ==> '0' <= s[k] <= '9'
  }

  function Unsign(s: string): string {
    if s != "" && (s[0] == '-' || s[0] == '+') then s[1..] else s
  }

  /** An optional sign and a hexadecimal or decimal number. */
  predicate Numeric(s: string) {
    var u := Unsign(s);
    if u == "" then false
    else if |u| >= 2 && u[0] == '0' && (u[1] == 'x' || u[1] == 'X') then |u| > 2 && AllHex(u[2..])
    else AllDecimal(u)
  }

  /** hex2_width; 0 for what it does not know. */
  function TokenWidth(s: string): nat {
    if s == "" then 0
    else if s[0] == '!' then 1
    else if s[0] == '@' || s[0] == '$' then 2
    else if s[0] == '%' || s[0] == '&' then 4
    else if AllHex(s) && |s| % 2 == 0 then |s| / 2
    else 0
  }

  // ---- tables -------------------------------------------------------------------------------

  datatype Named = Named(name: string, at: nat)

  /** data is -1 until the first data label has been met. */
  datatype Tables = Tables(offset: nat, labels: seq<Named>, rels: seq<Named>, abss: seq<Named>, data: int)

  const EMPTY := Tables(0, [], [], [], -1)

  predicate IsDataLabel(name: string) {
    name == "ELF_data" || name == "HEX2_data"
  }

  function Handle(s: Tables, tok: string): Option<Tables>
    requires tok != ""
  {
    var name := tok[1..];
    if tok[0] == ':' then
      Some(s.(labels := s.labels + [Named(name, s.offset)],
              data := if s.data == -1 && IsDataLabel(name) then s.offset else s.data))
    else if tok[0] == '%' then
      Some(s.(rels := if Numeric(name) then s.rels else s.rels + [Named(name, s.offset)], offset := s.offset + 4))
    else if tok[0] == '&' then
      Some(s.(abss := if Numeric(name) then s.abss else s.abss + [Named(name, s.offset)], offset := s.offset + 4))
    else if TokenWidth(tok) == 0 then None
    else Some(s.(offset := s.offset + TokenWidth(tok)))
  }

  predicate NoEmpty(toks: seq<string>) {
    forall k :: 0 <= k < |toks| ==> toks[k] != ""
  }

  function HandleAll(s: Tables, toks: seq<string>): Option<Tables>
    requires NoEmpty(toks)
    decreases |toks|
  {
    if toks == [] then Some(s)
    else
      match Handle(s, toks[0])
      case None => None
      case Some(s1) => HandleAll(s1, toks[1..])
  }

  lemma {:induction false} TokensNotEmpty(t: string, tok: string, comment: bool)
    ensures NoEmpty(Tokens(t, tok, comment))
    decreases |t|
  {
    if t != "" {
      if comment {
        TokensNotEmpty(t[1..], tok, t[0] != '\n');
      } else if t[0] == '#' {
        TokensNotEmpty(t[1..], "", true);
      } else if IsBlank(t[0]) {
        TokensNotEmpty(t[1..], "", false);
      } else {
        TokensNotEmpty(t[1..], tok + [t[0]], false);
      }
    }
  }

  function Parse(t: string): Option<Tables> {
    TokensNotEmpty(t, "", false);
    HandleAll(EMPTY, Tokens(t, "", false))
  }

  // ---- what the tables keep -------------------------------------------------------------------

  predicate Before(r: Named, q: Named) {
    r.at + 4 <= q.at
  }

  predicate ApartRefs(r: Named, q: Named) {
    Before(r, q) || Before(q, r)
  }

  /** No two references share a byte, none lies across the start of the data, and all lie before the
      current offset. */
  predicate Spaced(s: Tables) {
    && (forall i, j :: 0 <= i < j < |s.rels| ==> Before(s.rels[i], s.rels[j]))
    && (forall i, j :: 0 <= i < j < |s.abss| ==> Before(s.abss[i], s.abss[j]))
    && (forall i, j :: 0 <= i < |s.rels| && 0 <= j < |s.abss| ==> ApartRefs(s.rels[i], s.abss[j]))
    && (forall i :: 0 <= i < |s.rels| ==> s.rels[i].at + 4 <= s.offset && OneSide(s.rels[i], s.data))
    && (forall j :: 0 <= j < |s.abss| ==> s.abss[j].at + 4 <= s.offset && OneSide(s.abss[j], s.data))
    && -1 <= s.data <= s.offset
  }

  predicate OneSide(r: Named, data: int) {
    data == -1 || r.at + 4 <= data || r.at >= data
  }

  lemma HandleSpaced(s: Tables, tok: string)
    requires tok != "" && Spaced(s)
    ensures Handle(s, tok).Some? ==> Spaced(Handle(s, tok).value)
  {
  }

  lemma {:induction false} HandleAllSpaced(s: Tables, toks: seq<string>)
    requires NoEmpty(toks) && Spaced(s)
    ensures HandleAll(s, toks).Some? ==> Spaced(HandleAll(s, toks).value)
    decreases |toks|
  {
    hide Handle, Spaced;
    if toks != [] {
      HandleSpaced(s, toks[0]);
      if Handle(s, toks[0]).Some? {
        HandleAllSpaced(Handle(s, toks[0]).value, toks[1..]);
      }
    }
  }

  /** In the tables of every source text the references are apart from each other and from the
      boundary of the data. */
  lemma ParseSpaced(t: string)
    ensures Parse(t).Some? ==> Spaced(Parse(t).value)
  {
    TokensNotEmpty(t, "", false);
    HandleAllSpaced(EMPTY, Tokens(t, "", false));
  }

  /** lookup_label: the first label of that name. */
  function Lookup(labels: seq<Named>, name: string): (at: int)
    ensures at >= -1
    decreases |labels|
  {
    if labels == [] then -1 else if labels[0].name == name then labels[0].at else Lookup(labels[1..], name)
  }

  predicate UniqueLabels(labels: seq<Named>) {
    forall i, j :: 0 <= i < j < |labels| ==> labels[i].name != labels[j].name
  }

  /** With unique labels the scan finds the one label there is. */
  lemma {:induction false} LookupUnique(labels: seq<Named>, k: nat)
    requires UniqueLabels(labels) && k < |labels|
    ensures Lookup(labels, labels[k].name) == labels[k].at
    decreases k
  {
    if k > 0 {
      LookupUnique(labels[1..], k - 1);
    }
  }

  // ---- addresses ------------------------------------------------------------------------------

  /** Where the loader puts what was at an offset of the flat program. */
  function NewAddress(at: int, data: int): int {
    if at < data then BASE + ENTRY_OFFSET + at else DATA_VM + (at - data)
  }

  /** And where that is in the file. */
  function NewPosition(at: int, data: int): int {
    if at < data then ENTRY_OFFSET + at else DATA_FILE_OFFSET + (at - data)
  }

  /** The loader maps the file at 0x600000, the data being at 0x800000 in it. */
  lemma LoaderMaps(at: int, data: int)
    ensures NewAddress(at, data) == NewPosition(at, data) + 0x60_0000
    ensures NewPosition(data, data) == 0x80_0000 && (at >= data ==> NewPosition(at, data) - NewPosition(data, data) == at - data)
    ensures at < data ==> NewPosition(at, data) == at + 0x400
  {
  }
}
