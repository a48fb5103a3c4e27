/** The loader's list of string tables, the search for `.text`, and the disassembler's walk over it. */
module Elf {
  import opened MachineWords

  const SHT_STRTAB := 3

  datatype Shdr = Shdr(name: nat, kind: nat, addr: nat, offset: nat, size: nat)

  /** What a zeroed buffer holds after reading `size` bytes at `offset`, however long the file is. */
  function Slice(file: seq<Byte>, offset: nat, size: nat): seq<Byte> {
    seq(size, k requires k >= 0 => if offset + k < |file| then file[offset + k] else 0)
  }

  datatype Row = Row(id: nat, data: seq<Byte>)

  /** The tables of the first `n` sections, last section first. */
  function Tables(shdrs: seq<Shdr>, file: seq<Byte>, n: nat): seq<Row>
    requires n <= |shdrs|
  {
    if n == 0 then []
    else if shdrs[n - 1].kind != SHT_STRTAB then Tables(shdrs, file, n - 1)
    else [Row(n - 1, Slice(file, shdrs[n - 1].offset, shdrs[n - 1].size))] + Tables(shdrs, file, n - 1)
  }

  /** One row for each string table section and no other, with ids strictly decreasing. */
  lemma {:induction false} TablesExact(shdrs: seq<Shdr>, file: seq<Byte>, n: nat)
    requires n <= |shdrs|
    ensures forall r | r in Tables(shdrs, file, n) ::
              r.id < n && shdrs[r.id].kind == SHT_STRTAB && r.data == Slice(file, shdrs[r.id].offset, shdrs[r.id].size)
    ensures forall i | 0 <= i < n && shdrs[i].kind == SHT_STRTAB ::
              Row(i, Slice(file, shdrs[i].offset, shdrs[i].size)) in Tables(shdrs, file, n)
    ensures forall i, j | 0 <= i < j < |Tables(shdrs, file, n)| ::
              Tables(shdrs, file, n)[i].id > Tables(shdrs, file, n)[j].id
    ensures forall r | r in Tables(shdrs, file, n) ::
              && |r.data| == shdrs[r.id].size
              && forall k | 0 <= k < |r.data| ::
                   r.data[k] == var at := shdrs[r.id].offset + k; if at < |file| then file[at] else 0
  {
    if n > 0 {
      TablesExact(shdrs, file, n - 1);
      var rest := Tables(shdrs, file, n - 1);
      assert forall i | 0 <= i < |rest| :: rest[i] in rest;
    }
  }

  class StrTab {
    var id: nat
    var data: seq<Byte>
    var next: StrTab?
    ghost var rows: seq<Row>
    ghost var repr: set<StrTab>

    /** The list from here on is acyclic and holds `rows`. */
    ghost predicate Valid()
      reads this, repr
      ensures Valid() ==> this in repr
    {
      && this in repr
      && (next == null ==> rows == [Row(id, data)])
      && (next != null ==>
            && next in repr && next.repr <= repr && this !in next.repr && next.Valid()
            && rows == [Row(id, data)] + next.rows)
    }

    constructor (id: nat, data: seq<Byte>, next: StrTab?)
      requires next != null ==> next.Valid()
      ensures Valid() && rows == [Row(id, data)] + RowsFrom(next)
    {
      this.id, this.data, this.next := id, data, next;
      rows := [Row(id, data)] + RowsFrom(next);
      repr := {this} + (if next == null then {} else next.repr);
    }
  }

  ghost function RowsFrom(tab: StrTab?): seq<Row>
    reads tab
  {
    if tab == null then [] else tab.rows
  }

  method LoadStrTab(shdrs: seq<Shdr>, file: seq<Byte>) returns (strtab: StrTab?)
    ensures strtab != null ==> strtab.Valid()
    ensures RowsFrom(strtab) == Tables(shdrs, file, |shdrs|)
    ensures forall r | r in RowsFrom(strtab) ::
              && r.id < |shdrs| && shdrs[r.id].kind == SHT_STRTAB && |r.data| == shdrs[r.id].size
              && forall k | 0 <= k < |r.data| ::
                   r.data[k] == var at := shdrs[r.id].offset + k; if at < |file| then file[at] else 0
    ensures forall i | 0 <= i < |shdrs| && shdrs[i].kind == SHT_STRTAB :: exists r :: r in RowsFrom(strtab) && r.id == i
    ensures forall i, j | 0 <= i < j < |RowsFrom(strtab)| :: RowsFrom(strtab)[i].id > RowsFrom(strtab)[j].id
  {
    TablesExact(shdrs, file, |shdrs|);
    strtab := null;
    var i := 0;
    while i < |shdrs|
      invariant 0 <= i <= |shdrs|
      invariant strtab != null ==> strtab.Valid()
      invariant RowsFrom(strtab) == Tables(shdrs, file, i)
    {
      if shdrs[i].kind == SHT_STRTAB {
        strtab := new StrTab(i, Slice(file, shdrs[i].offset, shdrs[i].size), strtab);
      }
      i := i + 1;
    }
  }

  method FindTable(strtab: StrTab?, id: nat) returns (tab: StrTab?)
    requires strtab != null ==> strtab.Valid()
    ensures tab == null <==> forall r | r in RowsFrom(strtab) :: r.id != id
    ensures tab != null ==> tab.id == id && Row(id, tab.data) in RowsFrom(strtab)
  {
    tab := strtab;
    ghost var all, k := RowsFrom(strtab), 0;
    while tab != null && tab.id != id
      invariant tab != null ==> tab.Valid()
      invariant 0 <= k <= |all| && RowsFrom(tab) == all[k..]
      invariant forall i | 0 <= i < k :: all[i].id != id
      decreases |all| - k
    {
      assert tab.rows == [Row(tab.id, tab.data)] + RowsFrom(tab.next);
      assert all[k] == tab.rows[0] && all[k + 1..] == all[k..][1..];
      k := k + 1;
      tab := tab.next;
    }
    if tab == null {
      assert all[k..] == [];
    } else {
      assert all[k] == tab.rows[0] == Row(id, tab.data);
    }
  }

  // ---------- Names ----------

  /** A zero byte follows in the table. */
  predicate Terminated(data: seq<Byte>, off: nat) {
    off < |data| && exists k :: off <= k < |data| && data[k] == 0
  }

  function NameAt(data: seq<Byte>, off: nat): seq<Byte>
    requires off <= |data|
    decreases |data| - off
  {
    if off == |data| || data[off] == 0 then [] else [data[off]] + NameAt(data, off + 1)
  }

  predicate Named(data: seq<Byte>, off: nat, name: seq<Byte>) {
    off <= |data| && NameAt(data, off) == name
  }

  const DOT_TEXT: seq<Byte> := [46, 116, 101, 120, 116]

  /** `!strcmp(&data[off], name)`; reads stay inside the table. */
  method SameName(data: seq<Byte>, off: nat, name: seq<Byte>) returns (same: bool)
    requires Terminated(data, off) && 0 !in name
    ensures same <==> Named(data, off, name)
  {
    var k := 0;
    while k < |name| && data[off + k] == name[k]
      invariant 0 <= k <= |name| && Terminated(data, off + k)
      invariant Named(data, off, name) <==> NameAt(data, off + k) == name[k..]
    {
      assert name[k] in name && name[k] != 0;
      assert name[k..] == [name[k]] + name[k + 1..];
      k := k + 1;
    }
    if k == |name| {
      same := data[off + k] == 0;
    } else {
      assert name[k] in name && name[k..][0] == name[k];
      same := false;
    }
  }

  /** `.text` and a zero stand in the file at `at`; the end of the file counts as a zero. */
  predicate TextAt(file: seq<Byte>, at: nat) {
    && at + 5 <= |file| && file[at] == 46 && file[at + 1] == 116 && file[at + 2] == 101 && file[at + 3] == 120
    && file[at + 4] == 116 && (at + 5 < |file| ==> file[at + 5] == 0)
  }

  /** A terminated name in a table is `.text` exactly if the file says so where the table was read. */
  lemma NamedInFile(file: seq<Byte>, offset: nat, size: nat, name: nat)
    requires Terminated(Slice(file, offset, size), name)
    ensures Named(Slice(file, offset, size), name, DOT_TEXT) <==> TextAt(file, offset + name)
  {
    var data := Slice(file, offset, size);
    Spelled(data, name, 0);
    Spelled(data, name, 1);
    Spelled(data, name, 2);
    Spelled(data, name, 3);
    Spelled(data, name, 4);
    Spelled(data, name, 5);
  }

  /** The rest of a name, one byte on. */
  lemma Spelled(data: seq<Byte>, off: nat, k: nat)
    requires k <= 5
    ensures off + k < |data| && data[off + k] != 0 ==>
      (NameAt(data, off + k) == DOT_TEXT[k..] <==>
         k < 5 && data[off + k] == DOT_TEXT[k] && NameAt(data, off + k + 1) == DOT_TEXT[k + 1..])
    ensures off + k < |data| && data[off + k] == 0 ==> (NameAt(data, off + k) == DOT_TEXT[k..] <==> k == 5)
  {
    if off + k < |data| && data[off + k] != 0 && k < 5 {
      assert DOT_TEXT[k..] == [DOT_TEXT[k]] + DOT_TEXT[k + 1..];
      assert NameAt(data, off + k)[1..] == NameAt(data, off + k + 1);
    }
  }

  method FindText(shdrs: seq<Shdr>, data: seq<Byte>) returns (i: nat)
    requires forall s | s in shdrs :: Terminated(data, s.name)
    ensures i <= |shdrs| && (i < |shdrs| ==> Named(data, shdrs[i].name, DOT_TEXT))
    ensures forall j | 0 <= j < i :: !Named(data, shdrs[j].name, DOT_TEXT)
  {
    i := 0;
    while i < |shdrs|
      invariant i <= |shdrs|
      invariant forall j | 0 <= j < i :: !Named(data, shdrs[j].name, DOT_TEXT)
    {
      var same := SameName(data, shdrs[i].name, DOT_TEXT);
      if same { return; }
      i := i + 1;
    }
  }

  /** The section holding the names is a string table, and every name in it is terminated. */
  ghost predicate NamesIn(shdrs: seq<Shdr>, file: seq<Byte>, stridx: nat) {
    && stridx < |shdrs| && shdrs[stridx].kind == SHT_STRTAB
    && forall s | s in shdrs :: Terminated(Slice(file, shdrs[stridx].offset, shdrs[stridx].size), s.name)
  }

  /** Lines 237-240: through the list of tables to the one with the names. */
  method NameTable(shdrs: seq<Shdr>, file: seq<Byte>, stridx: nat) returns (names: seq<Byte>)
    requires stridx < |shdrs| && shdrs[stridx].kind == SHT_STRTAB
    ensures names == Slice(file, shdrs[stridx].offset, shdrs[stridx].size)
  {
    hide Tables, Slice;
    var strtab := LoadStrTab(shdrs, file);
    TablesExact(shdrs, file, |shdrs|);
    var tab := FindTable(strtab, stridx);
    assert tab != null;
    names := tab.data;
  }

  /** `load`: through the list of tables to the first section called `.text`, or none. */
  method Load(shdrs: seq<Shdr>, file: seq<Byte>, stridx: nat) returns (text: nat)
    requires NamesIn(shdrs, file, stridx)
    ensures var names := Slice(file, shdrs[stridx].offset, shdrs[stridx].size);
      && text <= |shdrs| && (text < |shdrs| ==> Named(names, shdrs[text].name, DOT_TEXT))
      && forall j | 0 <= j < text :: !Named(names, shdrs[j].name, DOT_TEXT)
    ensures text < |shdrs| ==> TextAt(file, shdrs[stridx].offset + shdrs[text].name)
    ensures forall j | 0 <= j < text :: !TextAt(file, shdrs[stridx].offset + shdrs[j].name)
  {
    hide NameAt, TextAt, Slice, Terminated;
    forall s | s in shdrs
      ensures Named(Slice(file, shdrs[stridx].offset, shdrs[stridx].size), s.name, DOT_TEXT)
              <==> TextAt(file, shdrs[stridx].offset + s.name)
    {
      NamedInFile(file, shdrs[stridx].offset, shdrs[stridx].size, s.name);
    }
    var names := NameTable(shdrs, file, stridx);
    text := FindText(shdrs, names);
  }

  // ---------- disasm ----------

  /** Each instruction stands right behind the one before. */
  predicate Consecutive(positions: seq<int>, length: int -> nat) {
    forall j | 0 < j < |positions| :: Behind(positions[j - 1], positions[j], length)
  }

  predicate Behind(p: int, q: int, length: int -> nat) {
    length(p) > 0 && q == p + length(p)
  }

  lemma ConsecutiveNone(length: int -> nat)
    ensures Consecutive([], length)
  {
  }

  lemma ConsecutiveAppend(positions: seq<int>, p: int, length: int -> nat)
    requires Consecutive(positions, length)
    requires positions != [] ==>
      var last := positions[|positions| - 1]; length(last) > 0 && p == last + length(last)
    ensures Consecutive(positions + [p], length)
  {
    var all := positions + [p];
    forall j | 0 < j < |all| ensures Behind(all[j - 1], all[j], length) {
      assert all[j - 1] == positions[j - 1];
      if j < |positions| { assert all[j] == positions[j]; }
    }
  }

  /** All positions lie before `end`, and none before the first. */
  predicate Ranged(positions: seq<int>, end: int) {
    forall i | 0 <= i < |positions| :: positions[0] <= positions[i] < end
  }

  /** Where `disasm` decodes, for instruction lengths `length` (zero: not decodable): from the start
      address on, one instruction behind the other, until `len` are shown, the section ends, or one
      cannot be decoded. */
  method Disasm(text: Shdr, start: nat, len: nat, length: int -> nat) returns (positions: seq<int>)
    ensures |positions| <= len
    ensures positions != [] ==>
      ((forall p | p in positions :: text.offset <= p < text.offset + text.size) <==> text.addr <= start)
    ensures positions != [] ==> positions[0] == text.offset + start - text.addr
    ensures Consecutive(positions, length) && Ranged(positions, text.offset + text.size)
    ensures |positions| < len ==>
      if positions == [] then start >= text.addr + text.size
      else var last := positions[|positions| - 1];
        length(last) == 0 || last + length(last) >= text.offset + text.size
  {
    hide Consecutive;
    ConsecutiveNone(length);
    positions := [];
    var addr := start;
    var i := 0;
    while i < len
      invariant 0 <= i <= len && |positions| == i && addr >= start && (i == 0 ==> addr == start)
      invariant i > 0 ==> positions[0] == text.offset + start - text.addr
      invariant i > 0 ==>
        var last := positions[i - 1]; length(last) > 0 && text.offset + addr - text.addr == last + length(last)
      invariant Consecutive(positions, length) && Ranged(positions, text.offset + text.size)
    {
      if addr >= text.addr + text.size { break; }
      var offset := text.offset + addr - text.addr;
      ConsecutiveAppend(positions, offset, length);
      positions := positions + [offset];
      if length(offset) == 0 { break; }
      addr := addr + length(offset);
      i := i + 1;
    }
    if positions != [] { assert positions[0] in positions; }
  }
}
