/** The archives of boot-ar: how they are printed and read, and what replacing members means. */
module ArFormat {
  import opened Wrappers
  import opened Arith
  import Numerals

  const NUL := '\0'
  const HDR := 60

  /** A member: its name without a directory, and its bytes. */
  datatype Member = Member(base: string, data: string)

  function Magic(): (m: string)
    ensures |m| == 8
  {
    "!<arch>\n"
  }

  // ---- numbers ------------------------------------------------------------------------------------

  predicate IsDigit(c: char) {
    '0' <= c <= '9'
  }

  function Digit(d: nat): (c: char)
    requires d < 10
    ensures IsDigit(c) && c as int == d + 48
  {
    Numerals.DigitChar(d, false)
  }

  /** %ld of a number that is not negative. */
  function Decimal(n: nat): (s: string)
    ensures s != "" && forall k :: 0 <= k < |s| ==> IsDigit(s[k])
  {
    var d := Numerals.Printed(10, n, false);
    AllDigits(n, d);
    d
  }

  lemma AllDigits(n: nat, d: string)
    requires d == Numerals.Printed(10, n, false)
    ensures forall k :: 0 <= k < |d| ==> IsDigit(d[k])
  {
    Numerals.PrintedDigits(10, n, false);
    assert forall k :: 0 <= k < |d| ==> Numerals.IsDigitOf(10, d[k]);
  }

  /** The value of the digits at the front, behind those of v. */
  function Digits(s: string, v: nat): nat
    decreases |s|
  {
    if s == "" || !IsDigit(s[0]) then v else Digits(s[1..], 10 * v + (s[0] as int - 48))
  }

  predicate IsSpace(c: char) {
    c == ' ' || '\t' <= c <= '\r'
  }

  /** atol */
  function Atol(s: string): int {
    if s == "" then 0
    else if IsSpace(s[0]) then Atol(s[1..])
    else if s[0] == '-' then 0 - Digits(s[1..], 0)
    else if s[0] == '+' then Digits(s[1..], 0)
    else Digits(s, 0)
  }

  lemma {:induction false} DigitsAppend(s: string, c: char, rest: string, v: nat)
    requires (forall k :: 0 <= k < |s| ==> IsDigit(s[k])) && IsDigit(c) && (rest == "" || !IsDigit(rest[0]))
    ensures Digits(s + [c] + rest, v) == 10 * Digits(s, v) + (c as int - 48)
    decreases |s|
  {
    var t := s + [c] + rest;
    if s == "" {
      assert t[0] == c && t[1..] == rest;
    } else {
      assert t[0] == s[0] && t[1..] == s[1..] + [c] + rest;
      DigitsAppend(s[1..], c, rest, 10 * v + (s[0] as int - 48));
    }
  }

  /** A printed number is read back, whatever follows that is no digit. */
  lemma {:induction false} DecimalDigits(n: nat, rest: string)
    requires rest == "" || !IsDigit(rest[0])
    ensures Digits(Decimal(n) + rest, 0) == n
    decreases n
  {
    if n < 10 {
      var t := [Digit(n)] + rest;
      assert t[1..] == rest;
    } else {
      DigitsAppend(Decimal(n / 10), Digit(n % 10), rest, 0);
      DecimalDigits(n / 10, "");
      assert Decimal(n / 10) + "" == Decimal(n / 10);
    }
  }

  lemma DecimalAtol(n: nat, rest: string)
    requires rest == "" || !IsDigit(rest[0])
    ensures Atol(Decimal(n) + rest) == n
  {
    DecimalDigits(n, rest);
  }

  function Pow10(k: nat): (p: nat)
    ensures p >= 1
  {
    if k == 0 then 1 else 10 * Pow10(k - 1)
  }

  lemma {:induction false} DecimalLength(n: nat, k: nat)
    requires k >= 1
    ensures |Decimal(n)| <= k <==> n < Pow10(k)
    decreases k
  {
    if k == 1 {
      assert Pow10(1) == 10 * Pow10(0);
    } else if n >= 10 {
      DecimalLength(n / 10, k - 1);
    } else {
      assert Pow10(k) >= 10;
    }
  }

  /** The first digits of a number are those of a smaller one. */
  lemma {:induction false} DecimalPrefix(n: nat, k: nat) returns (m: nat)
    requires 1 <= k <= |Decimal(n)|
    ensures Decimal(n)[..k] == Decimal(m) && m <= n && (k < |Decimal(n)| ==> m < n)
    decreases n
  {
    if k == |Decimal(n)| {
      m := n;
      assert Decimal(n)[..k] == Decimal(n);
    } else {
      m := DecimalPrefix(n / 10, k);
      assert Decimal(n)[..k] == Decimal(n / 10)[..k];
    }
  }

  // ---- printing -----------------------------------------------------------------------------------

  function Spaces(n: nat): (s: string)
    ensures |s| == n
    ensures forall k :: 0 <= k < n ==> s[k] == ' '
  {
    if n == 0 then "" else " " + Spaces(n - 1)
  }

  /** What fits of s, and spaces. */
  function Field(width: nat, s: string): (f: string)
    ensures |f| == width
  {
    if |s| >= width then s[..width] else s + Spaces(width - |s|)
  }

  function Header(name: string, size: nat): (h: string)
    ensures |h| == HDR
  {
    Field(16, name) + Field(12, "0") + Field(6, "0") + Field(6, "0") + Field(8, "644") + Field(10, Decimal(size)) + "`\n"
  }

  function Pad(n: nat): (p: string)
    ensures |p| == n % 2
  {
    if n % 2 == 1 then "\n" else ""
  }

  function Payload(m: Member): nat {
    |m.base| + |m.data|
  }

  function Entry(m: Member): string {
    Header("#1/" + Decimal(|m.base|), Payload(m)) + m.base + m.data + Pad(Payload(m))
  }

  function Entries(ms: seq<Member>): string {
    if ms == [] then "" else Entry(ms[0]) + Entries(ms[1..])
  }

  function Archive(ms: seq<Member>): string {
    Magic() + Entries(ms)
  }

  // ---- reading ------------------------------------------------------------------------------------

  /** Up to the first NUL. */
  function CString(s: string): (c: string)
    ensures NUL !in c
  {
    if s == "" || s[0] == NUL then "" else [s[0]] + CString(s[1..])
  }

  /** Without the spaces and NULs at its end. */
  function Trimmed(s: string): string {
    if s == "" then "" else if s[|s| - 1] == ' ' || s[|s| - 1] == NUL then Trimmed(s[..|s| - 1]) else s
  }

  function NameField(h: string): string
    requires |h| >= HDR
  {
    CString(Trimmed(h[..16]))
  }

  /** None if the size is no number; then reading stops. */
  function SizeField(h: string): Option<nat>
    requires |h| >= HDR
  {
    SizeIn(CString(h[48..58]))
  }

  function SizeIn(s: string): Option<nat> {
    if s == "" then None else if s[0] == ' ' then SizeIn(s[1..]) else if IsDigit(s[0]) then Some(Digits(s, 0)) else None
  }

  predicate StartsWith(s: string, p: string) {
    |p| <= |s| && s[..|p|] == p
  }

  /** Symbol tables and tables of long names. */
  predicate IsTable(name: string) {
    name == "/" || name == "//" || StartsWith(name, "__.SYMDEF")
  }

  function PlainName(name: string): string {
    if name != "" && name[|name| - 1] == '/' then name[..|name| - 1] else name
  }

  function Before(a: seq<Member>, r: Option<seq<Member>>): Option<seq<Member>> {
    if r.Some? then Some(a + r.value) else None
  }

  /** The member with this header in front of body; None is a read outside the file. */
  function ReadMember(name: string, size: nat, body: string): Option<seq<Member>> {
    if StartsWith(name, "#1/") then
      var n := Atol(name[3..]);
      if 0 <= n <= size <= |body| then Some([Member(CString(body[..n]), body[n..size])]) else None
    else if IsTable(name) then Some([])
    else if size <= |body| then Some([Member(PlainName(name), body[..size])])
    else None
  }

  /** What is behind a member of this size. */
  function Behind(size: nat, body: string): (r: string)
    ensures |r| <= |body|
  {
    if size + size % 2 <= |body| then body[size + size % 2..] else ""
  }

  function ReadEntries(t: string): Option<seq<Member>>
    decreases |t|
  {
    if |t| < HDR then Some([])
    else
      match SizeField(t)
      case None => Some([])
      case Some(size) =>
        match ReadMember(NameField(t), size, t[HDR..])
        case None => None
        case Some(m) => Before(m, ReadEntries(Behind(size, t[HDR..])))
  }

  /** None is a call of exit, or a read outside the file. */
  function Read(blob: string): Option<seq<Member>> {
    if |blob| >= 8 && blob[..8] == Magic() then ReadEntries(blob[8..]) else None
  }

  // ---- the round trip -----------------------------------------------------------------------------

  lemma {:induction false} TrimSpaces(s: string, n: nat)
    requires s != "" && s[|s| - 1] != ' ' && s[|s| - 1] != NUL
    ensures Trimmed(s + Spaces(n)) == s
    decreases n
  {
    var t := s + Spaces(n);
    if n == 0 {
      assert t == s;
    } else {
      SpacesSnoc(n - 1);
      assert t[|t| - 1] == ' ' && t[..|t| - 1] == s + Spaces(n - 1);
      TrimSpaces(s, n - 1);
    }
  }

  lemma {:induction false} SpacesSnoc(n: nat)
    ensures Spaces(n + 1) == Spaces(n) + " "
    decreases n
  {
    if n > 0 {
      SpacesSnoc(n - 1);
    }
  }

  lemma {:induction false} CStringWhole(s: string)
    requires NUL !in s
    ensures CString(s) == s
    decreases |s|
  {
    if s != "" {
      CStringWhole(s[1..]);
      assert s == [s[0]] + s[1..];
    }
  }

  /** The name field of an entry. */
  lemma NameRead(n: nat)
    requires |Decimal(n)| <= 13
    ensures var f := Field(16, "#1/" + Decimal(n)); CString(Trimmed(f)) == "#1/" + Decimal(n)
  {
    hide Decimal;
    var s := "#1/" + Decimal(n);
    TrimSpaces(s, 16 - |s|) by { assert IsDigit(s[|s| - 1]); }
    if |s| == 16 {
      assert Field(16, s) == s && s + Spaces(0) == s;
    }
    assert NUL !in s by { assert forall k :: 3 <= k < |s| ==> IsDigit(s[k]); }
    CStringWhole(s);
  }

  /** The size field: at most ten digits are written, and read. */
  lemma SizeRead(n: nat) returns (m: nat)
    ensures SizeIn(CString(Field(10, Decimal(n)))) == Some(m) && m <= n && (n < Pow10(10) <==> m == n)
  {
    hide Decimal, Pow10, Digits;
    DecimalLength(n, 10);
    var d := Decimal(n);
    if |d| <= 10 {
      m := n;
      if |d| == 10 { assert Field(10, d) == d && d + Spaces(0) == d; }
      SizeOf(m, 10 - |d|);
    } else {
      m := DecimalPrefix(n, 10);
      assert Decimal(m) + Spaces(0) == Decimal(m);
      SizeOf(m, 0);
    }
  }

  lemma SizeOf(m: nat, n: nat)
    ensures SizeIn(CString(Decimal(m) + Spaces(n))) == Some(m)
  {
    hide Decimal, Digits;
    var s := Decimal(m) + Spaces(n);
    assert IsDigit(s[0]) by { assert s[0] == Decimal(m)[0]; }
    assert NUL !in s;
    CStringWhole(s);
    DecimalDigits(m, Spaces(n));
  }

  /** The parts of a header. */
  lemma HeaderParts(name: string, size: nat, body: string)
    ensures var t := Header(name, size) + body; |t| == HDR + |body| && t[..16] == Field(16, name) && t[48..58] == Field(10, Decimal(size)) && t[HDR..] == body
  {
    hide Field, Decimal;
  }

  /** The lengths of names that a header has room for, which are more than memory has. */
  predicate NameFits(m: Member) {
    |Decimal(|m.base|)| <= 13
  }

  /** An entry in front of others: it is read as it was if its payload has at most ten digits, and
      otherwise it comes out shorter, if anything comes out. */
  lemma EntryRead(m: Member, rest: string)
    requires NUL !in m.base && NameFits(m)
    ensures Payload(m) < Pow10(10) ==> ReadEntries(Entry(m) + rest) == Before([m], ReadEntries(rest))
    ensures Payload(m) >= Pow10(10) && ReadEntries(Entry(m) + rest).Some? ==>
      var r := ReadEntries(Entry(m) + rest).value; r != [] && |r[0].data| < |m.data|
  {
    hide Decimal, Pow10, Field, ReadEntries, Digits;
    var n, size := |m.base|, Payload(m);
    var body := m.base + m.data + Pad(size) + rest;
    var t := Header("#1/" + Decimal(n), size) + body;
    assert Entry(m) + rest == t;
    HeaderParts("#1/" + Decimal(n), size, body);
    NameRead(n);
    var read := SizeRead(size);
    NameNumber(n);
    assert body[..n] == m.base;
    CStringWhole(m.base);
    EntryBody(m, rest);
    FirstEntry(t, read);
  }

  lemma NameNumber(n: nat)
    ensures var s := "#1/" + Decimal(n); StartsWith(s, "#1/") && s[3..] == Decimal(n) && Atol(s[3..]) == n
  {
    hide Decimal;
    var s := "#1/" + Decimal(n);
    assert s[..3] == "#1/" && s[3..] == Decimal(n);
    assert Decimal(n) + "" == Decimal(n);
    DecimalAtol(n, "");
  }

  lemma EntryBody(m: Member, rest: string)
    ensures var n, size := |m.base|, Payload(m); var body := m.base + m.data + Pad(size) + rest;
      size <= |body| && body[n..size] == m.data && Behind(size, body) == rest
  {
  }

  lemma FirstEntry(t: string, size: nat)
    requires |t| >= HDR && SizeField(t) == Some(size)
    ensures var m := ReadMember(NameField(t), size, t[HDR..]);
      ReadEntries(t) == if m.None? then None else Before(m.value, ReadEntries(Behind(size, t[HDR..])))
  {
    hide SizeField, NameField, ReadMember;
  }

  predicate Printable(ms: seq<Member>) {
    forall k :: 0 <= k < |ms| ==> NUL !in ms[k].base && NameFits(ms[k])
  }

  predicate Small(ms: seq<Member>) {
    forall k :: 0 <= k < |ms| ==> Payload(ms[k]) < Pow10(10)
  }

  lemma {:induction false} EntriesRead(ms: seq<Member>)
    requires Printable(ms)
    ensures ReadEntries(Entries(ms)) == Some(ms) <==> Small(ms)
    decreases |ms|
  {
    hide Entry, Pow10, ReadEntries, NameFits;
    if ms == [] {
      NoEntries();
    } else {
      EntriesRead(ms[1..]);
      EntryRead(ms[0], Entries(ms[1..]));
      assert Small(ms) <==> Payload(ms[0]) < Pow10(10) && Small(ms[1..]) by { SmallCons(ms); }
      assert ms == [ms[0]] + ms[1..];
      var r := ReadEntries(Entries(ms[1..]));
      if r.Some? {
        assert ([ms[0]] + r.value)[1..] == r.value;
      }
    }
  }

  lemma SmallCons(ms: seq<Member>)
    requires ms != []
    ensures Small(ms) <==> Payload(ms[0]) < Pow10(10) && Small(ms[1..])
  {
    hide Pow10, Payload;
    assert forall k :: 1 <= k < |ms| ==> ms[k] == ms[1..][k - 1];
  }

  lemma NoEntries()
    ensures ReadEntries("") == Some([])
  {
  }

  /** Reading an archive gives back what was written, members of any content in their order, exactly if
      no payload needs more than the ten digits of the size field. */
  lemma RoundTrip(ms: seq<Member>)
    requires Printable(ms)
    ensures Read(Archive(ms)) == Some(ms) <==> Small(ms)
  {
    hide ReadEntries, Entries, Small, Magic;
    EntriesRead(ms);
    assert Archive(ms)[..8] == Magic() && Archive(ms)[8..] == Entries(ms);
  }

  // ---- the format -----------------------------------------------------------------------------------

  /** Text from a position on. */
  predicate Has(t: string, at: nat, s: string) {
    at + |s| <= |t| && t[at..at + |s|] == s
  }

  /** s and spaces from one position to another. */
  predicate Padded(t: string, from: nat, to: nat, s: string) {
    from + |s| <= to <= |t| && Has(t, from, s) && forall k :: from + |s| <= k < to ==> t[k] == ' '
  }

  /** An entry as other programs read it: the length of the name behind #1/, zeros for time and owners, the
      mode 644, the size in decimal, the two characters that end a header, the name and the data, and a
      newline if there would be an odd number of bytes. */
  lemma EntryLayout(m: Member)
    requires NameFits(m) && Payload(m) < Pow10(10)
    ensures var t := Entry(m); var n := |m.base|; var size := n + |m.data|;
      && Padded(t, 0, 16, "#1/" + Decimal(n)) && Padded(t, 16, 28, "0") && Padded(t, 28, 34, "0") && Padded(t, 34, 40, "0") && Padded(t, 40, 48, "644")
      && Padded(t, 48, 58, Decimal(size)) && t[58] == '`' && t[59] == '\n'
      && Has(t, 60, m.base) && Has(t, 60 + n, m.data)
      && |t| == 60 + size + size % 2 && (size % 2 == 1 ==> t[60 + size] == '\n')
  {
    hide Decimal, Pow10, Header, Padded;
    DecimalLength(Payload(m), 10);
    var name := "#1/" + Decimal(|m.base|);
    var body := m.base + m.data + Pad(Payload(m));
    FieldsOfHeader(name, Payload(m), body);
    BodyLayout(Header(name, Payload(m)), m);
    assert Entry(m) == Header(name, Payload(m)) + body;
  }

  lemma BodyLayout(h: string, m: Member)
    requires |h| == HDR
    ensures var t := h + (m.base + m.data + Pad(Payload(m))); var n := |m.base|; var size := n + |m.data|;
      && Has(t, 60, m.base) && Has(t, 60 + n, m.data) && |t| == 60 + size + size % 2 && (size % 2 == 1 ==> t[60 + size] == '\n')
  {
  }

  lemma FieldsOfHeader(name: string, size: nat, body: string)
    requires |name| <= 16 && |Decimal(size)| <= 10
    ensures var t := Header(name, size) + body;
      && Padded(t, 0, 16, name) && Padded(t, 16, 28, "0") && Padded(t, 28, 34, "0") && Padded(t, 34, 40, "0") && Padded(t, 40, 48, "644")
      && Padded(t, 48, 58, Decimal(size)) && t[58] == '`' && t[59] == '\n'
  {
    hide Decimal, Field;
    var t := Header(name, size) + body;
    assert t[0..16] == Field(16, name) && t[16..28] == Field(12, "0") && t[28..34] == Field(6, "0") && t[34..40] == Field(6, "0")
        && t[40..48] == Field(8, "644") && t[48..58] == Field(10, Decimal(size)) && t[58..60] == "`\n";
    assert t[58] == t[58..60][0] && t[59] == t[58..60][1];
    FieldAt(t, 0, 16, name);
    FieldAt(t, 16, 12, "0");
    FieldAt(t, 28, 6, "0");
    FieldAt(t, 34, 6, "0");
    FieldAt(t, 40, 8, "644");
    FieldAt(t, 48, 10, Decimal(size));
  }

  lemma FieldAt(t: string, from: nat, width: nat, s: string)
    requires |s| <= width && from + width <= |t| && t[from..from + width] == Field(width, s)
    ensures Padded(t, from, from + width, s)
  {
    var f := t[from..from + width];
    assert f == s + Spaces(width - |s|);
    assert t[from..from + |s|] == f[..|s|];
    forall k | from + |s| <= k < from + width
      ensures t[k] == ' '
    {
      assert t[k] == f[k - from];
    }
  }

  /** A name that fits the name field, in the convention with a slash behind it or in the one without. */
  predicate ShortName(name: string, slash: bool) {
    && name != "" && |name| + (if slash then 1 else 0) <= 16 && NUL !in name && '/' !in name && name[|name| - 1] != ' '
    && name[..if |name| < 2 then |name| else 2] != "#1" && !StartsWith(name, "__.SYMDEF") && !StartsWith(name + "/", "__.SYMDEF")
  }

  /** Members that other programs have written are read as well. */
  lemma ShortRead(name: string, slash: bool, data: string, rest: string)
    requires ShortName(name, slash) && |data| < Pow10(10)
    ensures ReadEntries(Header(if slash then name + "/" else name, |data|) + (data + Pad(|data|) + rest)) == Before([Member(name, data)], ReadEntries(rest))
  {
    hide Decimal, Pow10, Field, ReadEntries, Digits;
    var n := if slash then name + "/" else name;
    var body := data + Pad(|data|) + rest;
    var t := Header(n, |data|) + body;
    HeaderParts(n, |data|, body);
    NameKept(n);
    var read := SizeRead(|data|);
    assert body[..|data|] == data && Behind(|data|, body) == rest;
    ShortPlain(name, slash);
    FirstEntry(t, |data|);
  }

  lemma ShortPlain(name: string, slash: bool)
    requires ShortName(name, slash)
    ensures var n := if slash then name + "/" else name; !StartsWith(n, "#1/") && !IsTable(n) && PlainName(n) == name
  {
    var n := if slash then name + "/" else name;
    assert |n| >= 3 ==> n[..3][..2] == n[..2] && n[..2] == name[..2] && "#1/"[..2] == "#1";
    assert n[0] == name[0] && name[0] != '/' && name[|name| - 1] != '/';
  }

  lemma NameKept(n: string)
    requires n != "" && |n| <= 16 && NUL !in n && n[|n| - 1] != ' '
    ensures CString(Trimmed(Field(16, n))) == n
  {
    if |n| == 16 {
      assert n + Spaces(0) == n && Field(16, n) == n;
      TrimSpaces(n, 0);
    } else {
      TrimSpaces(n, 16 - |n|);
    }
    CStringWhole(n);
  }

  predicate IsSymbolTable(name: string) {
    name == "/" || name == "//" || name == "__.SYMDEF" || name == "__.SYMDEF SORTED"
  }

  lemma TableName(name: string)
    requires IsSymbolTable(name)
    ensures IsTable(name) && !StartsWith(name, "#1/") && |name| <= 16 && NUL !in name && name[|name| - 1] != ' '
  {
    assert "__.SYMDEF SORTED"[..9] == "__.SYMDEF" && "__.SYMDEF"[..9] == "__.SYMDEF";
    assert |name| >= 3 ==> name[..3][0] == name[0];
  }

  /** Symbol tables and tables of names are no members. */
  lemma TableRead(name: string, data: string, rest: string)
    requires IsSymbolTable(name) && |data| < Pow10(10)
    ensures ReadEntries(Header(name, |data|) + (data + Pad(|data|) + rest)) == ReadEntries(rest)
  {
    hide Decimal, Pow10, Field, ReadEntries, Digits;
    var body := data + Pad(|data|) + rest;
    var t := Header(name, |data|) + body;
    HeaderParts(name, |data|, body);
    TableName(name);
    NameKept(name);
    var read := SizeRead(|data|);
    assert Behind(|data|, body) == rest;
    FirstEntry(t, |data|);
    var r := ReadEntries(rest);
    assert r.Some? ==> [] + r.value == r.value;
  }

  // ---- replacing ----------------------------------------------------------------------------------

  predicate Named(ms: seq<Member>, base: string) {
    exists k :: 0 <= k < |ms| && ms[k].base == base
  }

  /** The members whose names are not among those of the new ones. */
  function Kept(existing: seq<Member>, added: seq<Member>): seq<Member> {
    if existing == [] then [] else (if Named(added, existing[0].base) then [] else [existing[0]]) + Kept(existing[1..], added)
  }

  /** The create, replace and append operation. */
  function Replaced(existing: seq<Member>, added: seq<Member>): seq<Member> {
    Kept(existing, added) + added
  }

  lemma {:induction false} KeptConcat(a: seq<Member>, b: seq<Member>, added: seq<Member>)
    ensures Kept(a + b, added) == Kept(a, added) + Kept(b, added)
    decreases |a|
  {
    hide Named;
    if a == [] {
      assert a + b == b;
    } else {
      assert (a + b)[0] == a[0] && (a + b)[1..] == a[1..] + b;
      KeptConcat(a[1..], b, added);
    }
  }

  lemma {:induction false} KeptAll(a: seq<Member>, added: seq<Member>)
    requires forall k :: 0 <= k < |a| ==> !Named(added, a[k].base)
    ensures Kept(a, added) == a
    decreases |a|
  {
    hide Named;
    if a != [] {
      KeptAll(a[1..], added);
      assert a == [a[0]] + a[1..];
    }
  }

  lemma {:induction false} KeptNone(a: seq<Member>, added: seq<Member>)
    requires forall k :: 0 <= k < |a| ==> Named(added, a[k].base)
    ensures Kept(a, added) == []
    decreases |a|
  {
    hide Named;
    if a != [] {
      KeptNone(a[1..], added);
    }
  }

  /** Exactly the members of the old archive with other names, in their order. */
  lemma {:induction false} KeptNames(a: seq<Member>, added: seq<Member>)
    ensures forall k :: 0 <= k < |Kept(a, added)| ==> !Named(added, Kept(a, added)[k].base)
    ensures forall m :: m in Kept(a, added) <==> m in a && !Named(added, m.base)
    decreases |a|
  {
    hide Named;
    if a != [] {
      KeptNames(a[1..], added);
    }
  }

  /** At which positions the members are kept. */
  function KeptAt(a: seq<Member>, added: seq<Member>): seq<nat> {
    if a == [] then []
    else
      var n := |a| - 1;
      KeptAt(a[..n], added) + if Named(added, a[n].base) then [] else [n]
  }

  /** What is kept stands in the old archive at strictly increasing positions, which are all those of
      members with other names. */
  lemma {:induction false} KeptInOrder(a: seq<Member>, added: seq<Member>)
    ensures var at, kept := KeptAt(a, added), Kept(a, added);
      && |at| == |kept|
      && (forall i :: 0 <= i < |at| ==> at[i] < |a| && kept[i] == a[at[i]])
      && (forall i, j :: 0 <= i < j < |at| ==> at[i] < at[j])
      && forall k :: 0 <= k < |a| ==> (k in at <==> !Named(added, a[k].base))
    decreases |a|
  {
    hide Named, Kept;
    if a == [] {
      KeptNone(a, added);
    } else {
      var n := |a| - 1;
      KeptInOrder(a[..n], added);
      KeptConcat(a[..n], [a[n]], added);
      assert a == a[..n] + [a[n]];
      KeptOne(a[n], added);
      var at, kept := KeptAt(a[..n], added), Kept(a[..n], added);
      forall i | 0 <= i < |at|
        ensures at[i] < n && kept[i] == a[at[i]]
      {
        assert a[..n][at[i]] == a[at[i]];
      }
      forall k | 0 <= k < n
        ensures k in at <==> !Named(added, a[k].base)
      {
        assert a[..n][k] == a[k];
      }
      assert n !in at;
      assert KeptAt(a, added) == if Named(added, a[n].base) then at else at + [n];
      assert Kept(a, added) == if Named(added, a[n].base) then kept else kept + [a[n]];
    }
  }

  lemma KeptOne(m: Member, added: seq<Member>)
    ensures Kept([m], added) == if Named(added, m.base) then [] else [m]
  {
    hide Named;
    assert [m][1..] == [] && Kept([], added) == [];
  }

  /** Doing it again changes nothing. */
  lemma ReplacedTwice(a: seq<Member>, added: seq<Member>)
    ensures Replaced(Replaced(a, added), added) == Replaced(a, added)
  {
    hide Kept;
    var k := Kept(a, added);
    KeptConcat(k, added, added);
    KeptNames(a, added);
    KeptAll(k, added);
    KeptNone(added, added);
    assert k + [] == k;
  }

  // ---- what has been read can be printed ------------------------------------------------------------

  lemma {:induction false} CStringLength(s: string)
    ensures |CString(s)| <= |s|
    decreases |s|
  {
    if s != "" {
      CStringLength(s[1..]);
    }
  }

  lemma {:induction false} TrimmedLength(s: string)
    ensures |Trimmed(s)| <= |s|
    decreases |s|
  {
    if s != "" {
      TrimmedLength(s[..|s| - 1]);
    }
  }

  lemma {:induction false} DigitsBound(s: string, v: nat)
    ensures Digits(s, v) < (v + 1) * Pow10(|s|)
    decreases |s|
  {
    var p := Pow10(|s|);
    if s == "" || !IsDigit(s[0]) {
      Grows(v + 1, p);
    } else {
      var d := s[0] as int - 48;
      DigitsBound(s[1..], 10 * v + d);
      MoreDigits(v, d, Pow10(|s| - 1));
    }
  }

  lemma Grows(a: nat, p: nat)
    requires a >= 1 && p >= 1
    ensures a * p >= a
  {
  }

  lemma MoreDigits(v: nat, d: nat, q: nat)
    requires d < 10
    ensures (10 * v + d + 1) * q <= (v + 1) * (10 * q)
  {
    assert (v + 1) * (10 * q) == (10 * v + 10) * q;
    assert (10 * v + 10) * q - (10 * v + d + 1) * q == (9 - d) * q;
  }

  lemma {:induction false} Pow10Grows(m: nat, n: nat)
    requires m <= n
    ensures Pow10(m) <= Pow10(n)
    decreases n
  {
    if m < n {
      Pow10Grows(m, n - 1);
    }
  }

  lemma {:induction false} SizeBound(s: string)
    ensures SizeIn(s).Some? ==> SizeIn(s).value < Pow10(|s|)
    decreases |s|
  {
    if s != "" && s[0] == ' ' {
      SizeBound(s[1..]);
    } else if s != "" {
      DigitsBound(s, 0);
    }
  }

  /** A name that is read has no NUL and far fewer than 10^13 characters. */
  lemma NameRoom(m: Member, n: nat)
    requires NUL !in m.base && |m.base| <= n && n < Pow10(13)
    ensures Printable([m])
  {
    hide Pow10, Decimal;
    DecimalLength(|m.base|, 13);
  }

  lemma MemberRead(name: string, size: nat, body: string)
    requires NUL !in name && |name| <= 16 && size < Pow10(10)
    ensures ReadMember(name, size, body).Some? ==> Printable(ReadMember(name, size, body).value)
  {
    hide Pow10, Decimal, Atol, Printable;
    assert Printable([]) by { NoMembers(); }
    Pow10Grows(10, 13);
    assert 16 < Pow10(13) by { Pow10Grows(2, 13); Hundred(); }
    if ReadMember(name, size, body).Some? && ReadMember(name, size, body).value != [] {
      var m := ReadMember(name, size, body).value[0];
      if StartsWith(name, "#1/") {
        CStringLength(body[..Atol(name[3..])]);
        NameRoom(m, size);
      } else {
        assert |m.base| <= 16 && NUL !in m.base;
        NameRoom(m, 16);
      }
    }
  }

  lemma Hundred()
    ensures Pow10(2) == 100
  {
    assert Pow10(1) == 10 * Pow10(0);
  }

  lemma NoMembers()
    ensures Printable([])
  {
  }

  lemma HeaderRead(t: string)
    requires |t| >= HDR
    ensures NUL !in NameField(t) && |NameField(t)| <= 16 && (SizeField(t).Some? ==> SizeField(t).value < Pow10(10))
  {
    hide Pow10, Digits;
    TrimmedLength(t[..16]);
    CStringLength(Trimmed(t[..16]));
    CStringLength(t[48..58]);
    SizeBound(CString(t[48..58]));
    Pow10Grows(|CString(t[48..58])|, 10);
  }

  lemma {:induction false} ReadPrintable(t: string)
    ensures ReadEntries(t).Some? ==> Printable(ReadEntries(t).value)
    decreases |t|
  {
    hide NameField, SizeField, ReadMember, NameFits, Pow10;
    if |t| >= HDR && SizeField(t).Some? {
      var size := SizeField(t).value;
      HeaderRead(t);
      MemberRead(NameField(t), size, t[HDR..]);
      ReadPrintable(Behind(size, t[HDR..]));
    }
  }

  /** And neither does it change the file, if what was written the first time can be read back. */
  lemma ReplaceFileTwice(blob: string, added: seq<Member>)
    requires Read(blob).Some? && Printable(added) && Small(Replaced(Read(blob).value, added))
    ensures var once := Archive(Replaced(Read(blob).value, added));
      Read(once).Some? && Archive(Replaced(Read(once).value, added)) == once
  {
    ReadPrintable(blob[8..]);
    var ms := Replaced(Read(blob).value, added);
    assert Printable(ms) by { ReplacedPrintable(Read(blob).value, added); }
    hide Read, Replaced, Archive, Small, Printable;
    RoundTrip(ms);
    ReplacedTwice(Read(blob).value, added);
  }

  lemma ReplacedPrintable(a: seq<Member>, added: seq<Member>)
    requires Printable(a) && Printable(added)
    ensures Printable(Replaced(a, added))
  {
    hide Kept, Named, NameFits;
    KeptNames(a, added);
    var kept := Kept(a, added);
    forall k | 0 <= k < |kept|
      ensures NUL !in kept[k].base && NameFits(kept[k])
    {
      assert kept[k] in a;
    }
  }
}
