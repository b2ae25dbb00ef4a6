/** A GBNL table as an object: read from a file, recalculated in place, written to a sink. */
module Gbnl {
  import opened Bytes
  import opened Pools
  import opened Descriptors
  import opened Words
  import opened GbnlCodec
  import opened GbnlFiles
  import opened GbnlText
  import F = GbnlFormat
  import I = GbnlIds

  /** Adding the fields of a message to the pool. */
  function AddAll(p: Pool, vs: seq<Value>): Pool {
    if vs == [] then p else Add(AddAll(p, vs[..|vs| - 1]), vs[|vs| - 1])
  }

  lemma {:induction false} CollectMore(a: seq<Value>, b: seq<Value>)
    ensures Collect(a + b) == AddAll(Collect(a), b)
  {
    if b == [] {
      assert a + b == a;
    } else {
      CollectMore(a, b[..|b| - 1]);
      assert (a + b)[..|a + b| - 1] == a + b[..|b| - 1];
    }
  }

  /** A pool that has kept all offsets of another. */
  predicate Keeps(p: Pool, q: Pool) {
    forall s {:trigger s in p.offsets} {:trigger s in q.offsets} :: s in p.offsets ==> s in q.offsets && q.offsets[s] == p.offsets[s]
  }

  predicate Pooled(vs: seq<Value>, p: Pool) {
    forall i {:trigger vs[i]} :: 0 <= i < |vs| ==> (Live(vs[i]) ==> vs[i].str in p.offsets)
  }

  lemma {:induction false} SettleKept(vs: seq<Value>, p: Pool, q: Pool)
    requires Keeps(p, q) && Pooled(vs, p)
    ensures Pooled(vs, q) && SettleAll(vs, q) == SettleAll(vs, p)
  {
  }

  /** The messages with their strings placed, as far as the pool goes. */
  predicate RowsPlaced(messages: seq<seq<Value>>, placed: seq<seq<Value>>, p: Pool) {
    |placed| <= |messages| &&
    forall j {:trigger placed[j]} :: 0 <= j < |placed| ==> RowPlaced(messages[j], placed[j], p)
  }

  predicate RowPlaced(row: seq<Value>, placed: seq<Value>, p: Pool) {
    Pooled(row, p) && placed == SettleAll(row, p)
  }

  lemma {:induction false} RowsKept(messages: seq<seq<Value>>, placed: seq<seq<Value>>, p: Pool, q: Pool)
    requires RowsPlaced(messages, placed, p) && Keeps(p, q)
    ensures RowsPlaced(messages, placed, q)
  {
    forall j | 0 <= j < |placed|
      ensures RowPlaced(messages[j], placed[j], q)
    {
      assert RowPlaced(messages[j], placed[j], p);
      SettleKept(messages[j], p, q);
    }
  }

  class Gbnl {
    var little: bool
    var isGstl: bool
    var flags: nat
    var field28: nat
    var field30: nat
    var messages: seq<seq<Value>>
    var types: seq<FieldType>
    var msgDescrSize: nat
    var msgsSize: nat
    var realItemCount: nat

    constructor (little: bool, isGstl: bool, flags: nat, field28: nat, field30: nat, types: seq<FieldType>)
      ensures Contents() == Table(little, isGstl, flags, field28, field30, types, [])
    {
      this.little, this.isGstl, this.flags, this.field28, this.field30, this.types := little, isGstl, flags, field28, field30, types;
      messages := [];
    }

    ghost function Contents(): Table
      reads this
    {
      Table(little, isGstl, flags, field28, field30, types, messages)
    }

    /** The sizes kept beside the table are up to date. */
    ghost predicate Sized()
      reads this
    {
      msgDescrSize == TotalSize(types) && realItemCount == |Described(types)| && msgsSize == PoolSize(Contents())
    }

    /** The size of a record and the number of its fields without padding. */
    static method Measure(types: seq<FieldType>) returns (len: nat, count: nat)
      ensures len == TotalSize(types) && count == |Described(types)|
    {
      len, count := 0, 0;
      for i := 0 to |types|
        invariant len == TotalSize(types[..i]) && count == |Described(types[..i])|
      {
        assert types[..i + 1][..i] == types[..i];
        len := len + types[i].size;
        if types[i].kind != Padding {
          count := count + 1;
        }
      }
      assert types[..|types|] == types;
    }

    /** Places the strings of a message, in order, behind those placed before. */
    static method PlaceRow(row: seq<Value>, p: Pool) returns (placed: seq<Value>, q: Pool)
      ensures q == AddAll(p, row) && Keeps(p, q)
      ensures Pooled(row, q) && placed == SettleAll(row, q)
    {
      placed, q := [], p;
      for i := 0 to |row|
        invariant q == AddAll(p, row[..i]) && Keeps(p, q)
        invariant Pooled(row[..i], q) && placed == SettleAll(row[..i], q)
      {
        ghost var before := q;
        var v := row[i];
        assert row[..i + 1][..i] == row[..i];
        if v.Text? && v.offset != NIL {
          if v.str !in q.offsets {
            q := Pool(q.offsets[v.str := q.size], q.size + |v.str| + 1);
          }
          v := Text(v.str, q.offsets[v.str]);
        }
        SettleKept(row[..i], before, q);
        placed := placed + [v];
      }
      assert row[..|row|] == row;
    }

    /** Gives every string its offset and brings the sizes up to date. */
    method RecalcSize()
      modifies this
      ensures Contents() == Recalculated(old(Contents()))
      ensures msgDescrSize == TotalSize(types) && realItemCount == |Described(types)| && msgsSize == PoolSize(old(Contents()))
      ensures msgsSize < NIL ==> Sized()
    {
      hide Collect, TotalSize, Described, SettleAll, Pooled;
      msgDescrSize, realItemCount := Measure(types);
      NothingCollected();
      var p, placed := Pool(map[], 0), [];
      for j := 0 to |messages|
        invariant messages == old(messages) && Contents() == old(Contents())
        invariant msgDescrSize == TotalSize(types) && realItemCount == |Described(types)|
        invariant p == Collect(Flat(messages[..j])) && |placed| == j && RowsPlaced(messages, placed, p)
      {
        ghost var before := p;
        var row;
        row, p := PlaceRow(messages[j], p);
        RowsKept(messages, placed, before, p);
        CollectMore(Flat(messages[..j]), messages[j]);
        assert messages[..j + 1][..j] == messages[..j];
        placed := placed + [row];
      }
      assert messages[..|messages|] == messages;
      AllPlaced(Contents(), placed);
      if p.size < NIL {
        SamePool(Contents());
      }
      messages := placed;
      msgsSize := p.size;
    }

    /** Writes the records, each field in its encoding. */
    method DumpRecord(m: seq<Value>) returns (out: seq<byte>)
      requires |m| == |types|
      ensures out == RecordBytes(little, types, m)
    {
      out := [];
      for i := 0 to |types|
        invariant out == RecordBytes(little, types[..i], m[..i])
      {
        assert types[..i + 1][..i] == types[..i] && m[..i + 1][..i] == m[..i];
        out := out + FieldBytes(little, types[i], m[i]);
      }
      assert types[..|types|] == types && m[..|m|] == m;
    }

    method DumpRecords() returns (out: seq<byte>)
      requires Rows(types, messages)
      ensures out == Records(Contents())
    {
      out := [];
      for j := 0 to |messages|
        invariant Rows(types, messages[..j]) && out == RecordsOf(little, types, messages[..j])
      {
        assert messages[..j + 1][..j] == messages[..j];
        var r := DumpRecord(messages[j]);
        out := out + r;
      }
      assert messages[..|messages|] == messages;
    }

    /** Writes a descriptor for every field but padding. */
    method DumpTypes() returns (out: seq<byte>)
      ensures out == DescriptorsBytes(little, Described(types))
    {
      hide DescriptorsBytes, DescriptorBytes;
      out := [];
      var offs := 0;
      assert DescriptorsBytes(little, []) == [];
      for i := 0 to |types|
        invariant offs == TotalSize(types[..i]) && out == DescriptorsBytes(little, Described(types[..i]))
      {
        assert types[..i + 1][..i] == types[..i];
        if types[i].kind != Padding {
          DescriptorsMore(little, Described(types[..i]), Descriptor(CodeOf(types[i].kind), offs));
          out := out + DescriptorBytes(little, Descriptor(CodeOf(types[i].kind), offs));
        }
        offs := offs + types[i].size;
      }
      assert types[..|types|] == types;
    }

    /** Writes a string whenever its offset is where writing has got to. */
    method DumpStrings() returns (out: seq<byte>)
      ensures out == Emitted(Flat(messages))
    {
      hide Emitted;
      out := [];
      var offset := 0;
      NothingEmitted();
      for j := 0 to |messages|
        invariant out == Emitted(Flat(messages[..j])) && offset == |out|
      {
        assert messages[..j + 1][..j] == messages[..j];
        ghost var before := Flat(messages[..j]);
        assert before + messages[j][..0] == before;
        for i := 0 to |messages[j]|
          invariant out == Emitted(before + messages[j][..i]) && offset == |out|
        {
          EmitNext(before, messages[j], i);
          var v := messages[j][i];
          if v.Text? && v.offset == offset {
            out := out + v.str + [0];
            offset := offset + |v.str| + 1;
          }
        }
        assert messages[j][..|messages[j]|] == messages[j];
      }
      assert messages[..|messages|] == messages;
    }

    method DumpHeader() returns (out: seq<byte>)
      requires Sized()
      ensures out == HeadBytes(little, isGstl, HeadOfTable(Contents()))
    {
      var offset := if isGstl then HEADER_SIZE else 0;
      var msgsEnd := Align(isGstl, offset + msgDescrSize * |messages|);
      var controlEnd := Align(isGstl, msgsEnd + 4 * realItemCount);
      var h := Head(1, 0, 16, 4, flags, offset, |messages|, msgDescrSize, realItemCount, msgsEnd,
                    field28, if msgsSize > 0 then controlEnd else 0, field30, 0, 0, 0);
      out := HeadBytes(little, isGstl, h);
    }

    /** Writes the table. The alignment of each section is that of what has been written before it. */
    method Dump() returns (out: seq<byte>)
      requires Rows(types, messages) && Sized()
      ensures out == Dumped(Contents())
    {
      hide Records, Emitted, Described, DescriptorsBytes, HeadBytes, HeadOfTable, Flat, Collect, TotalSize;
      var records := DumpRecords();
      var types := DumpTypes();
      var strings := DumpStrings();
      var head := DumpHeader();
      var body := PadTo(isGstl, records) + PadTo(isGstl, types) + PadTo(isGstl, strings);
      out := if isGstl then head + body else body + head;
    }

    /** Reads the type descriptors and builds the fields between them. A byte waits for the next
        offset, which decides whether it is a byte or a fixed string. */
    static method ParseTypes(file: seq<byte>, little: bool, at: nat, n: nat, size: nat) returns (r: Option<seq<FieldType>>)
      requires at + 4 * n <= |file|
      ensures var ds := DescriptorsAt(file, little, at, n); r == if Ordered(ds) then Some(Built(ds, size)) else None
    {
      hide DescriptorAt, DescriptorsAt, Padded, Ordered, Begun, Reach, KindOf, NaturalSize;
      NoDescriptors(file, little, at);
      var types: seq<FieldType>, end: nat, int8 := [], 0, false;
      for i := 0 to n
        invariant Ordered(DescriptorsAt(file, little, at, i))
        invariant Begun(DescriptorsAt(file, little, at, i)) == Building(types, end, int8)
      {
        ghost var ds := DescriptorsAt(file, little, at, i);
        var d := DescriptorAt(file, little, at + 4 * i);
        NextDescriptor(file, little, at, i);
        EndReached(ds);
        if KindOf(d.code).None? || end > d.offset {
          Disordered(ds, d);
          DescriptorsPrefix(file, little, at, i + 1, n);
          NotOrdered(DescriptorsAt(file, little, at, n), i + 1);
          return None;
        }
        var k := KindOf(d.code).value;
        types := types + Padded(d.offset - end, int8);
        NextBegun(ds, d, types);
        int8 := k == Int8;
        if !int8 {
          types := types + [FieldType(k, NaturalSize(k))];
        }
        end := d.offset + NaturalSize(k);
      }
      r := Some(types + Padded((size - end) % 0x1_0000, int8));
    }

    static method ParseField(file: seq<byte>, little: bool, t: FieldType, at: nat, pool: nat) returns (r: Option<Value>)
      ensures r == FieldAt(file, little, t, at, pool)
    {
      hide Dec, CStringIn;
      if at + t.size > |file| {
        return None;
      }
      var b := file[at..at + t.size];
      match t.kind
      case String =>
        var offs := Dec(little, b);
        if offs == NIL {
          return Some(Text([], NIL));
        }
        if offs >= |file| - pool {
          return None;
        }
        var s := CStringIn(file[pool + offs..]);
        return if s.None? then None else Some(Text(s.value, 0));
      case FixString => return Some(Fixed(b));
      case Padding => return Some(Gap(b));
      case _ => return Some(Num(Dec(little, b)));
    }

    static method ParseRecord(file: seq<byte>, little: bool, types: seq<FieldType>, at: nat, pool: nat) returns (r: Option<seq<Value>>)
      ensures r == RecordAt(file, little, types, at, pool)
    {
      hide FieldAt;
      var values, offs := [], at;
      for i := 0 to |types|
        invariant RecordAt(file, little, types[..i], at, pool) == Some(values) && offs == at + TotalSize(types[..i])
      {
        assert types[..i + 1][..i] == types[..i];
        var v := ParseField(file, little, types[i], offs, pool);
        if v.None? {
          RecordFails(file, little, types, at, pool, i + 1);
          return None;
        }
        values := values + [v.value];
        offs := offs + types[i].size;
      }
      assert types[..|types|] == types;
      r := Some(values);
    }

    static method ParseMessages(file: seq<byte>, little: bool, types: seq<FieldType>, h: Head) returns (r: Option<seq<seq<Value>>>)
      ensures r == MessagesAt(file, little, types, h.descrOffset, h.msgDescrSize, h.countMsgs, h.offsetMsgs)
    {
      hide RecordAt;
      var list, msgs := [], h.descrOffset;
      for i := 0 to h.countMsgs
        invariant MessagesAt(file, little, types, h.descrOffset, h.msgDescrSize, i, h.offsetMsgs) == Some(list)
        invariant msgs == h.descrOffset + i * h.msgDescrSize
      {
        var m := ParseRecord(file, little, types, msgs, h.offsetMsgs);
        if m.None? {
          MessagesFail(file, little, types, h.descrOffset, h.msgDescrSize, h.countMsgs, h.offsetMsgs, i + 1);
          return None;
        }
        list := list + [m.value];
        msgs := msgs + h.msgDescrSize;
      }
      r := Some(list);
    }

    /** The size announced for the table. */
    method Size() returns (ret: nat)
      ensures ret == SizeFrom(isGstl, msgDescrSize, |messages|, realItemCount, msgsSize)
      ensures Sized() ==> ret == GetSize(Contents())
    {
      ret := msgDescrSize * |messages|;
      ret := Align(isGstl, ret) + 4 * realItemCount;
      ret := Align(isGstl, ret) + msgsSize;
      ret := Align(isGstl, ret) + HEADER_SIZE;
    }

    /** Reads a file; succeeds exactly on the files that hold a table, and then holds it. */
    method Parse(file: seq<byte>) returns (ok: bool)
      requires |file| < NIL
      modifies this
      ensures ok <==> Parsed(file).Some?
      ensures ok <==> exists t :: F.TableIn(t, file) && Current(t)
      ensures ok ==> Contents() == Parsed(file).value && Sized() && F.TableIn(Contents(), file) && Current(Contents())
    {
      ParsedTable(file);
      hide Parsed, F.TableIn, Current;
      ok := ParseFile(file);
    }

    method ParseFile(file: seq<byte>) returns (ok: bool)
      requires |file| < NIL
      modifies this
      ensures ok <==> Parsed(file).Some?
      ensures ok ==> Contents() == Parsed(file).value && Sized()
    {
      hide HeadInside, HeadOf, DecWords, MessagesAt, DescriptorsAt, Built, Ordered, TotalSize, Collect, Flat, Described;
      if |file| < HEADER_SIZE {
        return false;
      }
      isGstl := file[..3] == Gst();
      var at := if isGstl then 0 else |file| - HEADER_SIZE;
      little := file[at + 3] == 76;
      WidthsSum();
      var h := HeadOf(DecWords(little, WIDTHS, file[at + 4..at + HEADER_SIZE]));
      var magic := file[at..at + 3];
      if (!little && file[at + 3] != 66) || (magic != Gst() && magic != Gbn()) || !HeadValid(h, magic == Gst(), |file|) {
        return false;
      }
      assert HeadInside(h, |file|);
      assert Parsed(file) == ParsedBody(file, little, isGstl, h);
      ok := ParseBody(file, h);
    }

    method ParseBody(file: seq<byte>, h: Head) returns (ok: bool)
      requires HeadInside(h, |file|) && |file| < NIL
      modifies this
      ensures little == old(little) && isGstl == old(isGstl)
      ensures ok <==> ParsedBody(file, little, isGstl, h).Some?
      ensures ok ==> Contents() == ParsedBody(file, little, isGstl, h).value && Sized()
    {
      hide MessagesAt, DescriptorsAt, Built, Ordered, TotalSize, Collect, Flat, Described, SettleAll;
      flags, field28, field30 := h.flags, h.field28, h.field30;
      var built := ParseTypes(file, little, h.offsetTypes, h.countTypes, h.msgDescrSize);
      if built.None? {
        return false;
      }
      types := built.value;
      var msgs := ParseMessages(file, little, types, h);
      if msgs.None? {
        return false;
      }
      messages := msgs.value;
      ghost var t := Contents();
      RecalcSize();
      if msgDescrSize != h.msgDescrSize {
        return false;
      }
      var size := Size();
      PoolInside(t);
      ok := size == |file|;
    }

    /** The id of field `i`; `k` counts the strings of the message up to it. */
    method CountId(simple: bool, j: nat, i: nat, k: nat) returns (id: Option<int>, k': nat)
      requires AllRows(Contents()) && j < |messages| && i < |types| && k == LiveBefore(messages[j], i)
      requires KindFits(types[i], messages[j][i])
      ensures id == GetId(simple, Contents(), j, i) && k' == LiveBefore(messages[j], i + 1)
    {
      var m, thisK := messages[j], 0;
      k' := k;
      if types[i].kind == String {
        if m[i].offset == NIL {
          return None, k';
        }
        k' := k + 1;
        thisK := k';
      } else if types[i].kind == FixString {
        thisK := if flags != 0 && field28 != 1 then 10000 else 0;
      } else {
        return None, k';
      }
      if simple {
        id := Some(ToInt32(i + j * 1000));
      } else if !isGstl && types[0].kind == Int32 && ((i == 8 && |types| == 9) || (i == 105 && |types| == 107)) {
        id := Some(Signed(m[0]));
      } else if isGstl && |types| == 3 && types[1].kind == Int32 {
        id := Some(Signed(m[1]) + if i == 0 then 100000 else 0);
      } else {
        id := Some(ToInt32(thisK * 10000 + j));
      }
    }

    /** Every value belongs to its field. */
    ghost predicate Typed()
      reads this
    {
      AllRows(Contents()) && forall j {:trigger messages[j]} :: 0 <= j < |messages| ==> KindsFit(types, messages[j])
    }

    /** Writes an entry for every exported string, and the end mark. */
    method WriteEntries(utf8: bool, simple: bool) returns (out: seq<byte>)
      requires Typed()
      ensures out == TextFrom(Contents(), utf8, simple, 0, 0)
    {
      hide EntryText, GetId, TextOf, LiveBefore, TextFrom, EofLine;
      out := [];
      ghost var t, all := Contents(), TextFrom(Contents(), utf8, simple, 0, 0);
      for j := 0 to |messages|
        invariant out + TextFrom(t, utf8, simple, j, 0) == all
      {
        var k := 0;
        assert KindsFit(types, messages[j]);
        NoneBefore(messages[j]);
        for i := 0 to |types|
          invariant out + TextFrom(t, utf8, simple, j, i) == all && k == LiveBefore(messages[j], i)
        {
          var id;
          id, k := CountId(simple, j, i, k);
          TextStep(out, t, utf8, simple, j, i);
          if id.Some? {
            out := out + EntryText(utf8, simple, id.value, TextOf(messages[j][i]));
          }
        }
        TextRow(t, utf8, simple, j);
      }
      TextEnd(t, utf8, simple);
      out := out + EofLine(utf8);
    }

    /** Exports the strings under their ids. */
    method WriteTxt(utf8: bool, simple: bool) returns (out: seq<byte>)
      requires Typed()
      ensures out == TextFrom(Contents(), utf8, simple, 0, 0)
      ensures I.TextIs(Contents(), utf8, simple, 0, 0, out)
    {
      hide TextFrom, I.TextIs;
      I.TextMeans(Contents(), utf8, simple, 0, 0);
      out := WriteEntries(utf8, simple);
    }

    /** The field with an id, searched for from message `index` on, round the end of the table. */
    method Find(simple: bool, id: int, index: nat) returns (r: Option<(nat, nat)>)
      requires Typed()
      ensures r == FindDst(simple, Contents(), id, index)
    {
      if simple {
        return if id >= 0 && id / 1000 < |messages| && id % 1000 < |types| then Some((id / 1000, id % 1000)) else None;
      }
      hide GetId, LiveBefore;
      ghost var t := Contents();
      var size := |messages|;
      for n := 0 to size
        invariant FindFrom(t, id, index, 0) == FindFrom(t, id, index, n)
      {
        var j := (index + n) % size;
        var k := 0;
        assert KindsFit(types, messages[j]);
        NoneBefore(messages[j]);
        for i := 0 to |types|
          invariant FindField(t, id, j, 0) == FindField(t, id, j, i) && k == LiveBefore(messages[j], i)
        {
          var tid;
          tid, k := CountId(false, j, i, k);
          if tid == Some(id) {
            return Some((j, i));
          }
        }
      }
      r := None;
    }

    /** Stores the lines collected for a field. */
    method Store(index: nat, pos: nat, msg: seq<byte>) returns (ok: bool)
      requires Typed() && index < |messages| && pos < |types|
      modifies this
      ensures var o := Stored(Reader(old(Contents()), index, Some(pos), msg)); ok <==> o.Some?
      ensures var o := Stored(Reader(old(Contents()), index, Some(pos), msg)); Contents() == if ok then o.value else old(Contents())
      ensures Typed()
    {
      hide CopyInto;
      ok := true;
      var v := messages[index][pos];
      match v {
        case Text(_, offset) => v := Text(Collected(msg), offset);
        case Fixed(chars) => v := Fixed(CopyInto(chars, Collected(msg)));
        case _ => return false;
      }
      assert KindsFit(types, messages[index]) && KindFits(types[pos], messages[index][pos]);
      messages := messages[index := messages[index][pos := v]];
    }

    /** Reads lines up to the end mark and stores what stands between separators. */
    method ReadLines(text: seq<byte>) returns (ok: bool)
      requires Typed()
      modifies this
      ensures ok <==> ReadText(Reader(old(Contents()), 0, None, []), text).Some?
      ensures ok ==> Contents() == Recalculated(ReadText(Reader(old(Contents()), 0, None, []), text).value)
    {
      hide SepLength, ReadId, FindDst, Stored, CopyInto, ReadText;
      var s, lastIndex, pos, msg := text, 0, None, [];
      ghost var all := ReadText(Reader(Contents(), 0, None, []), text);
      while true
        invariant Typed() && CanRead(Reader(Contents(), lastIndex, pos, msg))
        invariant ReadText(Reader(Contents(), lastIndex, pos, msg), s) == all
        decreases |s|
      {
        var n := LineLength(s);
        var line := s[..n];
        var sep := SepLength(line);
        ReadTextStep(Reader(Contents(), lastIndex, pos, msg), s);
        SepShort(line);
        if sep.Some? {
          if pos.Some? {
            ok := Store(lastIndex, pos.value, msg);
            if !ok {
              return;
            }
          } else {
            NothingStored(Reader(Contents(), lastIndex, pos, msg));
          }
          var rest := line[sep.value..];
          if [69, 79, 70] <= rest {
            RecalcSize();
            return true;
          }
          var simple := rest != [] && rest[0] == 35;
          var id := ReadId(if simple then rest[1..] else rest);
          var dst := Find(simple, id, lastIndex);
          if dst.None? {
            return false;
          }
          lastIndex, pos, msg := dst.value.0, Some(dst.value.1), [];
        } else {
          if pos.None? {
            return false;
          }
          if line != [] && line[|line| - 1] == 13 {
            line := line[..|line| - 1];
          }
          msg := msg + line + [10];
        }
        if n == |s| {
          return false;
        }
        s := s[n + 1..];
      }
    }

    /** Imports the strings: those of a text of entries are stored one after the other where their ids lead. Text that names
        an unknown id, or that ends early, is refused. */
    method ReadTxt(text: seq<byte>) returns (ok: bool)
      requires Typed()
      modifies this
      ensures ok <==> ReadText(Reader(old(Contents()), 0, None, []), text).Some?
      ensures ok ==> Contents() == Recalculated(ReadText(Reader(old(Contents()), 0, None, []), text).value)
      ensures I.TextTaken(old(Contents()), text, ReadText(Reader(old(Contents()), 0, None, []), text))
    {
      hide ReadText, I.TextTaken, Recalculated;
      I.TextRead(Contents(), text);
      ok := ReadLines(text);
    }
  }

  /** A value of the kind its field has. */
  predicate KindFits(t: FieldType, v: Value) {
    (t.kind == String <==> v.Text?) && (t.kind == FixString <==> v.Fixed?)
  }

  predicate KindsFit(types: seq<FieldType>, m: seq<Value>) {
    |m| == |types| && forall i {:trigger types[i]} {:trigger m[i]} :: 0 <= i < |types| ==> KindFits(types[i], m[i])
  }

  lemma {:induction false} TextStep(out: seq<byte>, t: Table, utf8: bool, simple: bool, j: nat, i: nat)
    requires AllRows(t) && j < |t.messages| && i < |t.types|
    ensures var id := GetId(simple, t, j, i);
            out + TextFrom(t, utf8, simple, j, i) ==
              (if id.Some? then out + EntryText(utf8, simple, id.value, TextOf(t.messages[j][i])) else out) + TextFrom(t, utf8, simple, j, i + 1)
  {
    hide EntryText, GetId, TextOf;
  }

  lemma {:induction false} TextRow(t: Table, utf8: bool, simple: bool, j: nat)
    requires AllRows(t) && j < |t.messages|
    ensures TextFrom(t, utf8, simple, j, |t.types|) == TextFrom(t, utf8, simple, j + 1, 0)
  {
  }

  lemma {:induction false} TextEnd(t: Table, utf8: bool, simple: bool)
    requires AllRows(t)
    ensures TextFrom(t, utf8, simple, |t.messages|, 0) == EofLine(utf8)
  {
  }

  lemma {:induction false} ReadTextStep(r: Reader, s: seq<byte>)
    requires CanRead(r)
    ensures var n := LineLength(s);
            ReadText(r, s) ==
              match ReadLine(r, s[..n])
              case Fail => None
              case Finish(t) => Some(t)
              case More(next) => if n == |s| then None else ReadText(next, s[n + 1..])
  {
  }

  lemma NothingStored(r: Reader)
    requires CanRead(r) && r.pos.None?
    ensures Stored(r) == Some(r.t)
  {
  }

  /** A table whose strings are in place is not changed by placing them again. */
  lemma {:induction false} CurrentStays(t: Table)
    requires Current(t)
    ensures Recalculated(t) == t
  {
    hide Collect;
    var p := Collect(Flat(t.messages));
    forall j | 0 <= j < |t.messages|
      ensures SettleAll(t.messages[j], p) == t.messages[j]
    {
      forall i | 0 <= i < |t.messages[j]|
        ensures Settle(t.messages[j][i], p) == t.messages[j][i]
      {
        var n := FlatAt(t.messages, j, i);
        assert Settled(Flat(t.messages)[n], p);
      }
    }
    assert Recalculated(t).messages == t.messages;
  }

  /** Export, then import: a table whose strings are in place is left as it is. */
  lemma {:induction false} TextRoundTrip(t: Table, utf8: bool, simple: bool)
    requires AllRows(t) && Exports(t, simple) && Current(t)
    ensures ReadText(Reader(t, 0, None, []), TextFrom(t, utf8, simple, 0, 0)) == Some(t) && Recalculated(t) == t
  {
    hide Exports, ReadText, TextFrom, Current, Recalculated;
    TextBack(t, utf8, simple, 0);
    CurrentStays(t);
  }

  lemma NoneBefore(m: seq<Value>)
    ensures LiveBefore(m, 0) == 0
  {
  }

  lemma PoolInside(t: Table)
    ensures PoolSize(t) < GetSize(t)
  {
  }

  lemma {:induction false} EndReached(ds: seq<Descriptor>)
    requires Ordered(ds)
    ensures Begun(ds).end == Reach(ds)
  {
    BegunMeans(ds);
  }

  lemma NoDescriptors(file: seq<byte>, little: bool, at: nat)
    requires at <= |file|
    ensures DescriptorsAt(file, little, at, 0) == [] && Ordered([]) && Begun([]) == Building([], 0, false)
  {
  }

  lemma {:induction false} NextDescriptor(file: seq<byte>, little: bool, at: nat, i: nat)
    requires at + 4 * (i + 1) <= |file|
    ensures DescriptorsAt(file, little, at, i + 1) == DescriptorsAt(file, little, at, i) + [DescriptorAt(file, little, at + 4 * i)]
  {
  }

  lemma {:induction false} Disordered(ds: seq<Descriptor>, d: Descriptor)
    requires KindOf(d.code).None? || Reach(ds) > d.offset
    ensures !Ordered(ds + [d])
  {
    assert (ds + [d])[..|ds|] == ds;
  }

  lemma {:induction false} DescriptorsPrefix(file: seq<byte>, little: bool, at: nat, i: nat, n: nat)
    requires i <= n && at + 4 * n <= |file|
    ensures DescriptorsAt(file, little, at, n)[..i] == DescriptorsAt(file, little, at, i)
    decreases n
  {
    hide DescriptorsAt, DescriptorAt;
    if i < n {
      DescriptorsPrefix(file, little, at, i, n - 1);
      NextDescriptor(file, little, at, n - 1);
    }
  }

  lemma {:induction false} NotOrdered(ds: seq<Descriptor>, i: nat)
    requires i <= |ds| && !Ordered(ds[..i])
    ensures !Ordered(ds)
    decreases |ds|
  {
    if i == |ds| {
      assert ds[..i] == ds;
    } else {
      assert ds[..|ds| - 1][..i] == ds[..i];
      NotOrdered(ds[..|ds| - 1], i);
    }
  }

  lemma {:induction false} RecordFails(file: seq<byte>, little: bool, types: seq<FieldType>, at: nat, pool: nat, i: nat)
    requires i <= |types| && RecordAt(file, little, types[..i], at, pool).None?
    ensures RecordAt(file, little, types, at, pool).None?
    decreases |types|
  {
    hide FieldAt;
    if i == |types| {
      assert types[..i] == types;
    } else {
      assert types[..|types| - 1][..i] == types[..i];
      RecordFails(file, little, types[..|types| - 1], at, pool, i);
    }
  }

  lemma {:induction false} MessagesFail(file: seq<byte>, little: bool, types: seq<FieldType>, at: nat, size: nat, n: nat, pool: nat, i: nat)
    requires i <= n && MessagesAt(file, little, types, at, size, i, pool).None?
    ensures MessagesAt(file, little, types, at, size, n, pool).None?
    decreases n
  {
    hide RecordAt;
    if i < n {
      MessagesFail(file, little, types, at, size, n - 1, pool, i);
    }
  }

  lemma NothingCollected()
    ensures Collect([]) == Pool(map[], 0)
  {
  }

  lemma AllPlaced(t: Table, placed: seq<seq<Value>>)
    requires RowsPlaced(t.messages, placed, Collect(Flat(t.messages))) && |placed| == |t.messages|
    ensures placed == Recalculated(t).messages
  {
    forall j | 0 <= j < |placed|
      ensures placed[j] == Recalculated(t).messages[j]
    {
      assert RowPlaced(t.messages[j], placed[j], Collect(Flat(t.messages)));
    }
  }

  lemma {:induction false} DescriptorsMore(little: bool, ds: seq<Descriptor>, d: Descriptor)
    ensures DescriptorsBytes(little, ds + [d]) == DescriptorsBytes(little, ds) + DescriptorBytes(little, d)
  {
    assert (ds + [d])[..|ds|] == ds;
  }

  lemma ParsedTable(file: seq<byte>)
    requires |file| < NIL
    ensures Parsed(file).Some? <==> exists t :: F.TableIn(t, file) && Current(t)
    ensures Parsed(file).Some? ==> F.TableIn(Parsed(file).value, file) && Current(Parsed(file).value)
  {
    hide Parsed, F.TableIn, Current;
    if Parsed(file).Some? {
      F.ParsedSays(file);
    }
    if t :| F.TableIn(t, file) && Current(t) {
      F.SaysParsed(t, file);
    }
  }

  lemma NothingEmitted()
    ensures Emitted(Flat([])) == []
  {
  }

  lemma EmitNext(before: seq<Value>, row: seq<Value>, i: nat)
    requires i < |row|
    ensures var out, v := Emitted(before + row[..i]), row[i];
            Emitted(before + row[..i + 1]) == if v.Text? && v.offset == |out| then out + v.str + [0] else out
  {
    assert (before + row[..i + 1])[..|before| + i] == before + row[..i];
  }
}
