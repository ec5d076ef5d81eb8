/** boot-ar.c: the loops over header fields, members and files. */
module Archiver {
  import opened Wrappers
  import opened ArFormat

  class Ar {
    /** The header that is being put together. */
    const hdr: array<char>

    ghost predicate Valid() {
      hdr.Length == HDR
    }

    constructor ()
      ensures Valid() && fresh(hdr)
    {
      hdr := new char[HDR](_ => NUL);
    }

    /** field: s at the left, spaces behind it, and no more than fits. */
    method PutField(dst: nat, width: nat, s: string)
      requires Valid() && dst + width <= HDR
      modifies hdr
      ensures hdr[dst..dst + width] == Field(width, s)
      ensures forall k :: 0 <= k < dst || dst + width <= k < HDR ==> hdr[k] == old(hdr[k])
    {
      var i := 0;
      while i < width
        invariant i <= width && forall k :: dst <= k < dst + i ==> hdr[k] == ' '
        invariant forall k :: 0 <= k < dst || dst + width <= k < HDR ==> hdr[k] == old(hdr[k])
      {
        hdr[dst + i] := ' ';
        i := i + 1;
      }
      var n := if |s| > width then width else |s|;
      i := 0;
      while i < n
        invariant i <= n && forall k :: 0 <= k < i ==> hdr[dst + k] == s[k]
        invariant forall k :: dst + i <= k < dst + width ==> hdr[k] == ' '
        invariant forall k :: 0 <= k < dst || dst + width <= k < HDR ==> hdr[k] == old(hdr[k])
      {
        hdr[dst + i] := s[i];
        i := i + 1;
      }
    }

    method PutHeader(f: string, name: string, size: nat) returns (r: string)
      requires Valid()
      modifies hdr
      ensures r == f + Header(name, size)
    {
      hide Field, Decimal;
      PutField(0, 16, name);
      PutField(16, 12, "0");
      PutField(28, 6, "0");
      PutField(34, 6, "0");
      PutField(40, 8, "644");
      assert hdr[..48] == Field(16, name) + Field(12, "0") + Field(6, "0") + Field(6, "0") + Field(8, "644");
      ghost var front := hdr[..48];
      PutField(48, 10, Decimal(size));
      assert hdr[..58] == front + Field(10, Decimal(size));
      front := hdr[..58];
      hdr[58] := '`';
      hdr[59] := '\n';
      assert hdr[..] == front + "`\n";
      r := f + hdr[..];
    }

    method WriteArchive(m: seq<Member>) returns (f: string)
      requires Valid()
      modifies hdr
      ensures f == Archive(m)
    {
      hide Entries, Header, Decimal, Magic;
      f := Magic();
      var i := 0;
      assert m[0..] == m;
      while i < |m|
        invariant i <= |m| && f + Entries(m[i..]) == Archive(m)
      {
        EntriesFrom(m, i);
        ghost var before := f;
        var nblen := |m[i].base|;
        var payload := nblen + |m[i].data|;
        f := PutHeader(f, "#1/" + Decimal(nblen), payload);
        f := f + m[i].base;
        f := f + m[i].data;
        if payload % 2 != 0 {
          f := f + "\n";
        }
        EntryAppended(before, m[i], Entries(m[i + 1..]));
        i := i + 1;
      }
      NothingWritten();
      assert m[i..] == [] && f + "" == f;
    }

    /** The loop that takes spaces and NULs off the end of the name. */
    method TrimName(s: string) returns (name: string)
      ensures name == CString(Trimmed(s))
    {
      var ni := |s|;
      assert s[..ni] == s;
      while ni > 0 && (s[ni - 1] == ' ' || s[ni - 1] == NUL)
        invariant ni <= |s| && Trimmed(s[..ni]) == Trimmed(s)
      {
        assert s[..ni][..ni - 1] == s[..ni - 1];
        ni := ni - 1;
      }
      name := CString(s[..ni]);
    }

    /** The size, if the field holds a number. */
    method ParseSize(sizebuf: string) returns (size: Option<nat>)
      ensures size == SizeIn(sizebuf)
    {
      var p := sizebuf;
      while p != "" && p[0] == ' '
        invariant SizeIn(p) == SizeIn(sizebuf)
        decreases |p|
      {
        p := p[1..];
      }
      if p == "" || p[0] < '0' || p[0] > '9' {
        return None;
      }
      size := Some(Digits(p, 0));
    }

    /** None is a call of exit or a read outside the file. */
    method ReadArchive(blob: string) returns (r: Option<seq<Member>>)
      ensures r == Read(blob)
    {
      hide Magic, NameField, SizeField, ReadMember, Behind;
      if |blob| < 8 || blob[..8] != Magic() {
        return None;
      }
      ghost var all := ReadEntries(blob[8..]);
      var m: seq<Member> := [];
      var pos := 8;
      BeforeNothing(all);
      while pos + HDR <= |blob|
        invariant 8 <= pos && Before(m, ReadEntries(if pos <= |blob| then blob[pos..] else "")) == all
        decreases |blob| - pos
      {
        ghost var t := blob[pos..];
        assert t[..16] == blob[pos..pos + 16] && t[48..58] == blob[pos + 48..pos + 58] && t[HDR..] == blob[pos + HDR..];
        HeaderFields(t);
        var name := TrimName(blob[pos..pos + 16]);
        var read := ParseSize(CString(blob[pos + 48..pos + 58]));
        if read.None? {
          StopsHere(m, t);
          return Some(m);
        }
        var size := read.value;
        FirstEntry(t, size);
        pos := pos + HDR;
        var one := ReadMember(name, size, blob[pos..]);
        if one.None? {
          return None;
        }
        BeforeTwice(m, one.value, ReadEntries(Behind(size, t[HDR..])));
        BehindIs(size, blob, pos);
        m := m + one.value;
        var k := size + size % 2;
        pos := pos + k;
      }
      NothingRead(m, if pos <= |blob| then blob[pos..] else "");
      r := Some(m);
    }

    /** Whether a name is one of those given. */
    method IsAmong(base: string, files: seq<Member>) returns (drop: bool)
      ensures drop == Named(files, base)
    {
      drop := false;
      var k := 0;
      while k < |files|
        invariant k <= |files| && forall j :: 0 <= j < k ==> files[j].base != base
      {
        if base == files[k].base {
          return true;
        }
        k := k + 1;
      }
    }

    /** Create, replace and append: archive is None if there is no such file yet. */
    method Replace(archive: Option<string>, files: seq<Member>) returns (r: Option<string>)
      requires Valid()
      modifies hdr
      ensures var ex := if archive.Some? then Read(archive.value) else Some([]);
        r == if ex.None? then None else Some(Archive(Kept(ex.value, files) + files))
    {
      hide Read, Archive, Named;
      var ex: Option<seq<Member>> := Some([]);
      if archive.Some? {
        ex := ReadArchive(archive.value);
        if ex.None? { return None; }
      }
      var out := KeepOthers(ex.value, files);
      var j := 0;
      assert files[..0] == [] && out + [] == out;
      ghost var kept := out;
      while j < |files|
        invariant j <= |files| && out == kept + files[..j]
      {
        assert kept + files[..j] + [files[j]] == kept + files[..j + 1];
        out := out + [files[j]];
        j := j + 1;
      }
      assert files[..j] == files;
      var f := WriteArchive(out);
      r := Some(f);
    }

    /** The members whose names are not given, for replacing and for deleting. */
    method KeepOthers(ex: seq<Member>, files: seq<Member>) returns (out: seq<Member>)
      ensures out == Kept(ex, files)
    {
      hide Named;
      out := [];
      var j := 0;
      assert ex[0..] == ex && [] + Kept(ex, files) == Kept(ex, files);
      while j < |ex|
        invariant j <= |ex| && out + Kept(ex[j..], files) == Kept(ex, files)
      {
        assert ex[j..][1..] == ex[j + 1..];
        var drop := IsAmong(ex[j].base, files);
        if !drop {
          assert out + ([ex[j]] + Kept(ex[j + 1..], files)) == out + [ex[j]] + Kept(ex[j + 1..], files);
          out := out + [ex[j]];
        } else {
          assert [] + Kept(ex[j + 1..], files) == Kept(ex[j + 1..], files);
        }
        j := j + 1;
      }
      assert out + [] == out;
    }

    /** The delete operation, for the names of files. */
    method Delete(archive: string, files: seq<Member>) returns (r: Option<string>)
      requires Valid()
      modifies hdr
      ensures r == match Read(archive) case None => None case Some(ms) => Some(Archive(Kept(ms, files)))
    {
      hide Read, Archive, Kept;
      var m := ReadArchive(archive);
      if m.None? {
        return None;
      }
      var out := KeepOthers(m.value, files);
      var f := WriteArchive(out);
      r := Some(f);
    }
  }

  lemma EntriesFrom(m: seq<Member>, i: nat)
    requires i < |m|
    ensures Entries(m[i..]) == Entry(m[i]) + Entries(m[i + 1..])
  {
    hide Entry;
    assert m[i..][1..] == m[i + 1..];
  }

  lemma EntryAppended(f: string, m: Member, rest: string)
    ensures f + Header("#1/" + Decimal(|m.base|), Payload(m)) + m.base + m.data + Pad(Payload(m)) + rest == f + (Entry(m) + rest)
    ensures Payload(m) % 2 == 0 ==> f + Header("#1/" + Decimal(|m.base|), Payload(m)) + m.base + m.data + rest == f + (Entry(m) + rest)
  {
    hide Header, Decimal;
  }

  lemma NothingWritten()
    ensures Entries([]) == ""
  {
  }

  lemma BeforeNothing(r: Option<seq<Member>>)
    ensures Before([], r) == r
  {
    if r.Some? {
      assert [] + r.value == r.value;
    }
  }

  lemma BeforeTwice(a: seq<Member>, b: seq<Member>, r: Option<seq<Member>>)
    ensures Before(a, Before(b, r)) == Before(a + b, r)
  {
    if r.Some? {
      assert a + (b + r.value) == a + b + r.value;
    }
  }

  lemma HeaderFields(t: string)
    requires |t| >= HDR
    ensures NameField(t) == CString(Trimmed(t[..16])) && SizeField(t) == SizeIn(CString(t[48..58]))
  {
  }

  lemma StopsHere(m: seq<Member>, t: string)
    requires |t| >= HDR && SizeField(t).None?
    ensures Before(m, ReadEntries(t)) == Some(m)
  {
    hide SizeField;
    assert m + [] == m;
  }

  lemma NothingRead(m: seq<Member>, t: string)
    requires |t| < HDR
    ensures Before(m, ReadEntries(t)) == Some(m)
  {
    assert m + [] == m;
  }

  lemma BehindIs(size: nat, blob: string, pos: nat)
    requires pos <= |blob|
    ensures var next := pos + (size + size % 2); Behind(size, blob[pos..]) == if next <= |blob| then blob[next..] else ""
  {
  }
}
