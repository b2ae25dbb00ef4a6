/** Fixed strings in the text of a GBNL table: those of one message share an id. */
module GbnlClash {
  import opened Bytes
  import opened Pools
  import opened Descriptors
  import opened GbnlCodec
  import opened GbnlText

  /** Ids are counted, not taken out of the record, and there is room for all of them. */
  predicate Counted(t: Table) {
    && !(!t.isGstl && |t.types| > 0 && t.types[0].kind == Int32 && (|t.types| == 9 || |t.types| == 107))
    && !(t.isGstl && |t.types| == 3 && t.types[1].kind == Int32)
    && |t.messages| < 10000 && |t.types| < 10000
  }

  /** Every value belongs to its field, and no exported line starts with a separator. */
  predicate Clean(t: Table)
    requires AllRows(t)
  {
    forall j, i {:trigger GetId(false, t, j, i)} :: 0 <= j < |t.messages| && 0 <= i < |t.types| ==> CleanField(t, j, i)
  }

  predicate CleanField(t: Table, j: nat, i: nat)
    requires AllRows(t) && j < |t.messages| && i < |t.types|
  {
    var v := t.messages[j][i];
    Matches(t.types[i], v) && ZeroFilled(v) && (GetId(false, t, j, i).Some? ==> Plain(TextOf(v)))
  }

  // ---- which fields share an id

  lemma IdMeans(t: Table, j: nat, i: nat)
    requires AllRows(t) && Counted(t) && j < |t.messages| && i < |t.types|
    ensures GetId(false, t, j, i).Some? <==> t.types[i].kind == FixString || (t.types[i].kind == String && Live(t.messages[j][i]))
    ensures GetId(false, t, j, i).Some? ==>
              var k := if t.types[i].kind == String then LiveBefore(t.messages[j], i) + 1 else if t.flags != 0 && t.field28 != 1 then 10000 else 0;
              GetId(false, t, j, i).value == k * 10000 + j && 0 <= k * 10000 + j < 0x8000_0000
  {
    hide LiveBefore, ToInt32;
    LiveBound(t.messages[j], i);
    var k := if t.types[i].kind == String then LiveBefore(t.messages[j], i) + 1 else if t.flags != 0 && t.field28 != 1 then 10000 else 0;
    Within(k * 10000 + j);
  }

  lemma Within(n: nat)
    ensures n < 0x8000_0000 ==> ToInt32(n) == n
  {
  }

  /** Fewer strings than fields come before a field if a fixed string is among these. */
  lemma {:induction false} FixedUncounted(t: Table, m: seq<Value>, i: nat, f: nat)
    requires |m| == |t.types| && i < |t.types| && f < |t.types| && t.types[f].kind == FixString
    requires forall q {:trigger m[q]} :: 0 <= q < |m| ==> Matches(t.types[q], m[q])
    ensures t.types[i].kind == String ==> LiveBefore(m, i) + 1 < |t.types|
  {
    if t.types[i].kind == String {
      if f < i {
        LiveSkips(m, i, f);
      } else {
        LiveBound(m, i);
      }
    }
  }

  lemma {:induction false} LiveSkips(m: seq<Value>, i: nat, f: nat)
    requires f < i <= |m| && m[f].Fixed?
    ensures LiveBefore(m, i) + 1 <= i
    decreases i
  {
    if f < i - 1 {
      LiveSkips(m, i - 1, f);
    } else {
      LiveBound(m, f);
    }
  }

  /** Two fields have the same id only if they are fixed strings of one message. */
  lemma {:induction false} OnlyFixedShare(t: Table, j: nat, i: nat, j': nat, i': nat)
    requires AllRows(t) && Counted(t) && Clean(t) && j < |t.messages| && i < |t.types| && j' < |t.messages| && i' < |t.types|
    requires GetId(false, t, j, i).Some? && GetId(false, t, j, i) == GetId(false, t, j', i')
    ensures j == j' && (i == i' || (t.types[i].kind == FixString && t.types[i'].kind == FixString))
  {
    hide LiveBefore, GetId, CleanField, Counted;
    IdMeans(t, j, i);
    IdMeans(t, j', i');
    FieldMatches(t, j);
    FieldMatches(t, j');
    var m, m' := t.messages[j], t.messages[j'];
    if t.types[i'].kind == FixString {
      FixedUncounted(t, m, i, i');
    }
    if t.types[i].kind == FixString {
      FixedUncounted(t, m', i', i);
    }
    CountsApart(t, j, i, j', i');
  }

  lemma FieldMatches(t: Table, j: nat)
    requires AllRows(t) && Clean(t) && j < |t.messages|
    ensures forall q {:trigger t.messages[j][q]} :: 0 <= q < |t.types| ==> Matches(t.types[q], t.messages[j][q])
  {
    hide GetId, Matches;
    forall q | 0 <= q < |t.types|
      ensures Matches(t.types[q], t.messages[j][q])
    {
      assert GetId(false, t, j, q) == GetId(false, t, j, q);
      assert CleanField(t, j, q);
    }
  }

  lemma CountsApart(t: Table, j: nat, i: nat, j': nat, i': nat)
    requires AllRows(t) && Counted(t) && j < |t.messages| && i < |t.types| && j' < |t.messages| && i' < |t.types|
    requires t.types[i].kind == String || t.types[i].kind == FixString
    requires t.types[i'].kind == String || t.types[i'].kind == FixString
    requires t.types[i].kind == String ==> Live(t.messages[j][i])
    requires t.types[i'].kind == String ==> Live(t.messages[j'][i'])
    requires t.types[i].kind == FixString && t.types[i'].kind == String ==> LiveBefore(t.messages[j'], i') + 1 < |t.types|
    requires t.types[i'].kind == FixString && t.types[i].kind == String ==> LiveBefore(t.messages[j], i) + 1 < |t.types|
    requires var k := if t.types[i].kind == String then LiveBefore(t.messages[j], i) + 1 else if t.flags != 0 && t.field28 != 1 then 10000 else 0;
             var k' := if t.types[i'].kind == String then LiveBefore(t.messages[j'], i') + 1 else if t.flags != 0 && t.field28 != 1 then 10000 else 0;
             k * 10000 + j == k' * 10000 + j'
    ensures j == j' && (i == i' || (t.types[i].kind == FixString && t.types[i'].kind == FixString))
  {
    hide LiveBefore;
    if t.types[i].kind == String && t.types[i'].kind == String && j == j' {
      if i < i' {
        LiveCounts(t.messages[j], i, i');
      } else if i' < i {
        LiveCounts(t.messages[j], i', i);
      }
    }
  }

  // ---- where an id is found

  /** The first fixed string of a record, or the number of its fields. */
  function FirstFixed(types: seq<FieldType>, i: nat): (f: nat)
    requires i <= |types|
    ensures i <= f <= |types| && (forall q :: i <= q < f ==> types[q].kind != FixString)
    ensures f < |types| ==> types[f].kind == FixString
    decreases |types| - i
  {
    if i == |types| || types[i].kind == FixString then i else FirstFixed(types, i + 1)
  }

  /** The field that the id of a field leads to. */
  function Target(types: seq<FieldType>, i: nat): (f: nat)
    requires i < |types|
    ensures f <= i && types[f].kind == types[i].kind
  {
    if types[i].kind == FixString then FirstFixed(types, 0) else i
  }

  lemma {:induction false} FieldFound(t: Table, j: nat, i: nat, i': nat)
    requires AllRows(t) && Counted(t) && Clean(t) && j < |t.messages| && i < |t.types| && GetId(false, t, j, i).Some? && i' <= Target(t.types, i)
    ensures FindField(t, GetId(false, t, j, i).value, j, i') == Some(Target(t.types, i))
    decreases |t.types| - i'
  {
    hide GetId, Clean, Counted;
    if i' < Target(t.types, i) {
      if GetId(false, t, j, i') == GetId(false, t, j, i) {
        OnlyFixedShare(t, j, i, j, i');
      }
      FieldFound(t, j, i, i' + 1);
    } else {
      SharedId(t, j, i);
    }
  }

  /** The fixed strings of a message share one id. */
  lemma SharedId(t: Table, j: nat, i: nat)
    requires AllRows(t) && Counted(t) && j < |t.messages| && i < |t.types| && GetId(false, t, j, i).Some?
    ensures GetId(false, t, j, Target(t.types, i)) == GetId(false, t, j, i)
  {
    hide GetId, Counted;
    IdMeans(t, j, i);
    IdMeans(t, j, Target(t.types, i));
  }

  lemma {:induction false} NotElsewhere(t: Table, j: nat, i: nat, j': nat, i': nat)
    requires AllRows(t) && Counted(t) && Clean(t) && j < |t.messages| && i < |t.types| && GetId(false, t, j, i).Some?
    requires j' < |t.messages| && j' != j && i' <= |t.types|
    ensures FindField(t, GetId(false, t, j, i).value, j', i').None?
    decreases |t.types| - i'
  {
    hide GetId, Clean, Counted;
    if i' < |t.types| {
      if GetId(false, t, j', i') == GetId(false, t, j, i) {
        OnlyFixedShare(t, j, i, j', i');
      }
      NotElsewhere(t, j, i, j', i' + 1);
    }
  }

  /** Wherever the search starts, an id leads to its string, or to the first fixed string of the message. */
  lemma {:induction false} FoundFrom(t: Table, j: nat, i: nat, index: nat, n: nat)
    requires AllRows(t) && Counted(t) && Clean(t) && j < |t.messages| && i < |t.types| && GetId(false, t, j, i).Some?
    requires index < |t.messages| && n <= Distance(index, j, |t.messages|)
    ensures FindFrom(t, GetId(false, t, j, i).value, index, n) == Some((j, Target(t.types, i)))
    decreases Distance(index, j, |t.messages|) - n
  {
    hide GetId, FindField, Clean, Counted, Target;
    RoundTheEnd(index, n, |t.messages|);
    if n < Distance(index, j, |t.messages|) {
      NotElsewhere(t, j, i, (index + n) % |t.messages|, 0);
      FoundFrom(t, j, i, index, n + 1);
    } else {
      FieldFound(t, j, i, 0);
    }
  }

  // ---- tables that differ in fixed strings only

  /** The same ids everywhere. */
  predicate SameIds(t: Table, q: Table)
    requires AllRows(t)
  {
    && q.types == t.types && |q.messages| == |t.messages| && AllRows(q)
    && forall j, i {:trigger GetId(false, q, j, i)} :: 0 <= j < |t.messages| && 0 <= i < |t.types| ==> GetId(false, q, j, i) == GetId(false, t, j, i)
  }

  lemma {:induction false} SameField(t: Table, q: Table, id: int, j: nat, i: nat)
    requires AllRows(t) && SameIds(t, q) && j < |t.messages| && i <= |t.types|
    ensures FindField(q, id, j, i) == FindField(t, id, j, i)
    decreases |t.types| - i
  {
    hide GetId;
    if i < |t.types| {
      SameField(t, q, id, j, i + 1);
    }
  }

  lemma {:induction false} SameSearch(t: Table, q: Table, id: int, index: nat, n: nat)
    requires AllRows(t) && SameIds(t, q) && n <= |t.messages|
    ensures FindFrom(q, id, index, n) == FindFrom(t, id, index, n)
    decreases |t.messages| - n
  {
    hide FindField;
    if n < |t.messages| {
      SameField(t, q, id, (index + n) % |t.messages|, 0);
      SameSearch(t, q, id, index, n + 1);
    }
  }

  /** Rows alike but for the bytes of fixed strings. */
  predicate Alike(m: seq<Value>, w: seq<Value>) {
    |w| == |m| && forall i {:trigger w[i]} :: 0 <= i < |m| ==> w[i] == m[i] || (w[i].Fixed? && m[i].Fixed?)
  }

  lemma {:induction false} AlikeCounts(m: seq<Value>, w: seq<Value>, i: nat)
    requires Alike(m, w) && i <= |m|
    ensures LiveBefore(w, i) == LiveBefore(m, i)
  {
    if i > 0 {
      AlikeCounts(m, w, i - 1);
    }
  }

  lemma AlikeId(t: Table, q: Table, j: nat, i: nat)
    requires AllRows(t) && AllRows(q) && Counted(t) && q == t.(messages := q.messages) && |q.messages| == |t.messages|
    requires j < |t.messages| && i < |t.types| && Alike(t.messages[j], q.messages[j])
    ensures GetId(false, q, j, i) == GetId(false, t, j, i)
  {
    hide LiveBefore, ToInt32;
    AlikeCounts(t.messages[j], q.messages[j], i);
  }

  lemma AlikeIds(t: Table, q: Table)
    requires AllRows(t) && Counted(t) && q == t.(messages := q.messages) && |q.messages| == |t.messages|
    requires forall j {:trigger q.messages[j]} :: 0 <= j < |t.messages| ==> Alike(t.messages[j], q.messages[j])
    ensures SameIds(t, q)
  {
    hide GetId, Counted;
    forall j | 0 <= j < |t.messages|
      ensures |q.messages[j]| == |t.types|
    {
      assert Alike(t.messages[j], q.messages[j]);
    }
    forall j, i | 0 <= j < |t.messages| && 0 <= i < |t.types|
      ensures GetId(false, q, j, i) == GetId(false, t, j, i)
    {
      assert Alike(t.messages[j], q.messages[j]);
      AlikeId(t, q, j, i);
    }
  }

  // ---- what is read back

  /** A message after the texts of its first `i` fields have been read. */
  function Merged(types: seq<FieldType>, m: seq<Value>, i: nat): (w: seq<Value>)
    requires |m| == |types| && i <= |types| && forall q {:trigger m[q]} :: 0 <= q < |m| ==> Matches(types[q], m[q])
    ensures Alike(m, w)
    ensures forall q {:trigger w[q]} :: 0 <= q < |w| && w[q] != m[q] ==> q == FirstFixed(types, 0) < i && m[q].Fixed? && |w[q].chars| == |m[q].chars|
  {
    if i == 0 then m
    else if types[i - 1].kind != FixString then Merged(types, m, i - 1)
    else
      var f := FirstFixed(types, 0);
      assert Matches(types[f], m[f]) && Matches(types[i - 1], m[i - 1]);
      Merged(types, m, i - 1)[f := Fixed(CopyInto(m[f].chars, TextOf(m[i - 1])))]
  }

  /** Copying twice is copying the last time. */
  lemma CopyTwice(chars: seq<byte>, a: seq<byte>, b: seq<byte>)
    ensures CopyInto(CopyInto(chars, a), b) == CopyInto(chars, b) && |CopyInto(chars, a)| == |chars|
  {
    hide CStringIn;
  }

  /** Message `k` after the texts up to field `i` of message `j` have been read. */
  function PartRow(t: Table, j: nat, i: nat, k: nat): (w: seq<Value>)
    requires AllRows(t) && Clean(t) && i <= |t.types| && k < |t.messages|
    ensures |w| == |t.types|
  {
    FieldMatches(t, k);
    Merged(t.types, t.messages[k], if k < j then |t.types| else if k == j then i else 0)
  }

  /** The table after the texts up to field `i` of message `j` have been read. */
  function Part(t: Table, j: nat, i: nat): (q: Table)
    requires AllRows(t) && Clean(t) && i <= |t.types|
    ensures q == t.(messages := q.messages) && |q.messages| == |t.messages| && AllRows(q)
    ensures forall k {:trigger q.messages[k]} :: 0 <= k < |t.messages| ==> q.messages[k] == PartRow(t, j, i, k)
  {
    t.(messages := seq(|t.messages|, k requires 0 <= k < |t.messages| => PartRow(t, j, i, k)))
  }

  lemma PartAlike(t: Table, j: nat, i: nat)
    requires AllRows(t) && Counted(t) && Clean(t) && i <= |t.types|
    ensures SameIds(t, Part(t, j, i))
  {
    hide Merged, Clean, Counted;
    var q := Part(t, j, i);
    forall k | 0 <= k < |t.messages|
      ensures Alike(t.messages[k], q.messages[k])
    {
      FieldMatches(t, k);
      assert q.messages[k] == PartRow(t, j, i, k);
    }
    AlikeIds(t, q);
  }

  lemma PartFull(t: Table, j: nat)
    requires AllRows(t) && Clean(t) && j < |t.messages|
    ensures Part(t, j, |t.types|) == Part(t, j + 1, 0)
  {
    hide Merged, Clean;
    var p, q := Part(t, j, |t.types|), Part(t, j + 1, 0);
    forall k | 0 <= k < |t.messages|
      ensures p.messages[k] == q.messages[k]
    {
    }
    assert p.messages == q.messages;
  }

  lemma PartNone(t: Table)
    requires AllRows(t) && Clean(t)
    ensures Part(t, 0, 0) == t
  {
    hide Clean;
    assert Part(t, 0, 0).messages == t.messages;
  }

  /** One field more makes a difference if it is a fixed string. */
  lemma PartNext(t: Table, j: nat, i: nat)
    requires AllRows(t) && Clean(t) && j < |t.messages| && i < |t.types|
    ensures var p, q, f := Part(t, j, i), Part(t, j, i + 1), FirstFixed(t.types, 0);
            && (t.types[i].kind != FixString ==> q == p)
            && (t.types[i].kind == FixString ==> f <= i && t.messages[j][f].Fixed?)
            && (t.types[i].kind == FixString ==> q == WithField(p, j, f, Fixed(CopyInto(t.messages[j][f].chars, TextOf(t.messages[j][i])))))
  {
    hide Clean, CopyInto, TextOf;
    FieldMatches(t, j);
    var p, q, f := Part(t, j, i), Part(t, j, i + 1), FirstFixed(t.types, 0);
    var m := t.messages[j];
    assert p.messages[j] == Merged(t.types, m, i) && q.messages[j] == Merged(t.types, m, i + 1);
    forall k | 0 <= k < |t.messages| && k != j
      ensures p.messages[k] == q.messages[k]
    {
    }
    if t.types[i].kind != FixString {
      assert p.messages == q.messages;
    } else {
      assert f <= i && Matches(t.types[f], m[f]);
      assert q.messages == WithField(p, j, f, Fixed(CopyInto(m[f].chars, TextOf(m[i])))).messages;
    }
  }

  /** A field holds what it held before, or what was copied into it. */
  lemma PartField(t: Table, j: nat, i: nat, f: nat)
    requires AllRows(t) && Clean(t) && j < |t.messages| && i <= |t.types| && f < |t.types|
    ensures var v, w := t.messages[j][f], Part(t, j, i).messages[j][f];
            w == v || (v.Fixed? && w.Fixed? && (exists msg :: w.chars == CopyInto(v.chars, msg)))
    ensures t.types[f].kind == String ==> Part(t, j, i).messages[j][f] == t.messages[j][f]
  {
    hide Clean, CopyInto;
    FieldMatches(t, j);
    assert Part(t, j, i).messages[j] == Merged(t.types, t.messages[j], i);
    MergedField(t.types, t.messages[j], i, f);
    assert Matches(t.types[f], t.messages[j][f]);
  }

  lemma {:induction false} MergedField(types: seq<FieldType>, m: seq<Value>, i: nat, f: nat)
    requires |m| == |types| && i <= |types| && forall q {:trigger m[q]} :: 0 <= q < |m| ==> Matches(types[q], m[q])
    requires f < |types|
    ensures var v, w := m[f], Merged(types, m, i)[f];
            w == v || (v.Fixed? && w.Fixed? && (exists msg :: w.chars == CopyInto(v.chars, msg)))
  {
    hide CopyInto;
    if i > 0 {
      MergedField(types, m, i - 1, f);
    }
  }

  lemma StoresText(t: Table, j: nat, i: nat)
    requires AllRows(t) && Clean(t) && j < |t.messages| && i < |t.types| && t.types[i].kind == String
    ensures Stored(Reader(Part(t, j, i), j, Some(i), TextOf(t.messages[j][i]) + [10])) == Some(Part(t, j, i + 1))
  {
    hide Clean, CopyInto, TextOf, GetId, Part, Collected;
    FieldMatches(t, j);
    PartNext(t, j, i);
    PartField(t, j, i, i);
    var v := t.messages[j][i];
    assert Matches(t.types[i], v);
    CollectedBack(TextOf(v));
    LiveText(v);
    SameText(Part(t, j, i), j, i, v);
  }

  lemma StoresFixed(t: Table, j: nat, i: nat, f: nat)
    requires AllRows(t) && Clean(t) && j < |t.messages| && i < |t.types| && t.types[i].kind == FixString && f == FirstFixed(t.types, 0) <= i
    ensures Stored(Reader(Part(t, j, i), j, Some(f), TextOf(t.messages[j][i]) + [10])) == Some(Part(t, j, i + 1))
  {
    hide Clean, CopyInto, TextOf, GetId, Part, Collected;
    PartNext(t, j, i);
    PartField(t, j, i, f);
    var p, str := Part(t, j, i), TextOf(t.messages[j][i]);
    CollectedBack(str);
    var w := p.messages[j][f];
    if w != t.messages[j][f] {
      var msg :| w.chars == CopyInto(t.messages[j][f].chars, msg);
      CopyTwice(t.messages[j][f].chars, msg, str);
    }
  }

  /** What was collected for a field goes into the field its id leads to. */
  lemma StoresNext(t: Table, j: nat, i: nat)
    requires AllRows(t) && Counted(t) && Clean(t) && j < |t.messages| && i < |t.types| && GetId(false, t, j, i).Some?
    ensures Stored(Reader(Part(t, j, i), j, Some(Target(t.types, i)), TextOf(t.messages[j][i]) + [10])) == Some(Part(t, j, i + 1))
  {
    hide Clean, TextOf, GetId, Counted, Part, Stored;
    IdMeans(t, j, i);
    if t.types[i].kind == String {
      StoresText(t, j, i);
    } else {
      StoresFixed(t, j, i, Target(t.types, i));
    }
  }

  lemma LiveText(v: Value)
    requires v.Text?
    ensures TextOf(v) == v.str
  {
  }

  lemma SameText(p: Table, j: nat, i: nat, v: Value)
    requires AllRows(p) && j < |p.messages| && i < |p.types| && p.messages[j][i] == v && v.Text?
    ensures WithField(p, j, i, Text(v.str, v.offset)) == p
  {
    assert p.messages[j][i := v] == p.messages[j] && p.messages[j := p.messages[j]] == p.messages;
  }

  lemma CleanText(t: Table, j: nat, i: nat)
    requires AllRows(t) && Counted(t) && Clean(t) && j < |t.messages| && i < |t.types| && GetId(false, t, j, i).Some?
    ensures Plain(TextOf(t.messages[j][i])) && -0x8000_0000 <= GetId(false, t, j, i).value < 0x8000_0000
  {
    hide GetId, Plain, TextOf, Counted;
    IdMeans(t, j, i);
    assert CleanField(t, j, i);
  }

  lemma FindPart(t: Table, j: nat, i: nat, index: nat)
    requires AllRows(t) && Counted(t) && Clean(t) && j < |t.messages| && i < |t.types| && GetId(false, t, j, i).Some? && index < |t.messages|
    ensures FindDst(false, Part(t, j, i), GetId(false, t, j, i).value, index) == Some((j, Target(t.types, i)))
  {
    hide GetId, FindFrom, Clean, Counted, Target, Part;
    PartAlike(t, j, i);
    SameSearch(t, Part(t, j, i), GetId(false, t, j, i).value, index, 0);
    FoundFrom(t, j, i, index, 0);
  }

  /** Reading the rest of the text of a table goes on from the part that has been read. */
  lemma {:induction false} ReadRest(r: Reader, t: Table, utf8: bool, j: nat, i: nat)
    requires AllRows(t) && Counted(t) && Clean(t) && j <= |t.messages| && i <= |t.types|
    requires CanRead(r) && Stored(r) == Some(Part(t, j, i)) && (j == |t.messages| ==> i == 0)
    ensures ReadText(r, TextFrom(t, utf8, false, j, i)) == Some(Part(t, |t.messages|, 0))
    decreases |t.messages| - j, |t.types| - i
  {
    hide GetId, Stored, ReadText, FindDst, EntryText, EofLine, Plain, Clean, Counted, Part, Target, TextOf;
    if j == |t.messages| {
      ReadEnd(r, Part(t, j, 0), utf8);
    } else if i == |t.types| {
      PartFull(t, j);
      ReadRest(r, t, utf8, j + 1, 0);
    } else {
      var id, rest, p := GetId(false, t, j, i), TextFrom(t, utf8, false, j, i + 1), Part(t, j, i);
      PartNext(t, j, i);
      if id.Some? {
        var str := TextOf(t.messages[j][i]);
        CleanText(t, j, i);
        FindPart(t, j, i, r.index);
        ReadEntry(r, p, utf8, false, id.value, str, j, Target(t.types, i), rest);
        StoresNext(t, j, i);
        ReadRest(Reader(p, j, Some(Target(t.types, i)), str + [10]), t, utf8, j, i + 1);
      } else {
        assert [] + rest == rest;
        NoId(t, j, i);
        ReadRest(r, t, utf8, j, i + 1);
      }
    }
  }

  lemma NoId(t: Table, j: nat, i: nat)
    requires AllRows(t) && Counted(t) && j < |t.messages| && i < |t.types| && GetId(false, t, j, i).None?
    ensures t.types[i].kind != FixString
  {
    hide GetId, Counted;
    IdMeans(t, j, i);
  }

  // ---- when it is the same

  /** The last fixed string of a record, if there is one. */
  function LastFixed(types: seq<FieldType>, i: nat): (r: Option<nat>)
    requires i <= |types|
    ensures r.Some? ==> r.value < i && types[r.value].kind == FixString && FirstFixed(types, 0) <= r.value
    ensures r.None? ==> forall q :: 0 <= q < i ==> types[q].kind != FixString
  {
    if i == 0 then None else if types[i - 1].kind == FixString then Some(i - 1) else LastFixed(types, i - 1)
  }

  /** The text of the last fixed string, cut to the room of the first, is the first one's own text. */
  predicate LastLikeFirst(types: seq<FieldType>, m: seq<Value>)
    requires |m| == |types| && forall q {:trigger m[q]} :: 0 <= q < |m| ==> Matches(types[q], m[q])
  {
    var last, f := LastFixed(types, |types|), FirstFixed(types, 0);
    last.Some? ==>
      assert Matches(types[f], m[f]);
      CutTo(TextOf(m[last.value]), |m[f].chars| - 1) == TextOf(m[f])
  }

  /** What fits of a text. */
  function CutTo(s: seq<byte>, room: nat): seq<byte> {
    if |s| < room then s else s[..room]
  }

  /** Copying a text into a zero-filled string leaves that as it is exactly if what fits is what it holds. */
  lemma CopySame(chars: seq<byte>, msg: seq<byte>)
    requires chars != [] && FixedBytes(chars) == chars && 0 !in msg
    ensures CopyInto(chars, msg) == chars <==> CutTo(msg, |chars| - 1) == TextOf(Fixed(chars))
  {
    hide CStringIn, FixedBytes;
    var room, own := |chars| - 1, TextOf(Fixed(chars));
    CopyOwn(chars);
    OwnText(chars);
    var src := CutTo(msg, room);
    assert CStringIn(msg).None?;
    CopyWhole(chars, msg);
    CopyWhole(chars, own);
    if CopyInto(chars, msg) == chars {
      FilledSame(src, own, room, chars[room]);
    }
  }

  lemma OwnText(chars: seq<byte>)
    requires chars != [] && FixedBytes(chars) == chars
    ensures 0 !in TextOf(Fixed(chars)) && |TextOf(Fixed(chars))| < |chars|
  {
    assert chars[|chars| - 1] == 0;
  }

  lemma CopyWhole(chars: seq<byte>, msg: seq<byte>)
    requires chars != [] && 0 !in msg
    ensures var room := |chars| - 1; var src := CutTo(msg, room);
            |src| <= room && 0 !in src && CopyInto(chars, msg) == src + Zeros(room - |src|) + [chars[room]]
  {
    hide CStringIn;
    assert CStringIn(msg).None?;
    var room := |chars| - 1;
    var n := if |msg| < room then |msg| else room;
    assert seq(room - n, _ => 0) == Zeros(room - n);
  }

  lemma FilledApart(a: seq<byte>, b: seq<byte>, room: nat, last: byte)
    requires |a| < |b| <= room && 0 !in b
    ensures a + Zeros(room - |a|) + [last] != b + Zeros(room - |b|) + [last]
  {
    assert (a + Zeros(room - |a|) + [last])[|a|] == 0;
    assert (b + Zeros(room - |b|) + [last])[|a|] == b[|a|];
  }

  lemma FilledSame(a: seq<byte>, b: seq<byte>, room: nat, last: byte)
    requires |a| <= room && |b| <= room && 0 !in a && 0 !in b
    requires a + Zeros(room - |a|) + [last] == b + Zeros(room - |b|) + [last]
    ensures a == b
  {
    if |a| < |b| {
      FilledApart(a, b, room, last);
    } else if |b| < |a| {
      FilledApart(b, a, room, last);
    } else {
      assert (a + Zeros(room - |a|) + [last])[..|a|] == a;
      assert (b + Zeros(room - |b|) + [last])[..|b|] == b;
    }
  }

  lemma {:induction false} MergedLast(types: seq<FieldType>, m: seq<Value>, i: nat)
    requires |m| == |types| && i <= |types| && forall q {:trigger m[q]} :: 0 <= q < |m| ==> Matches(types[q], m[q])
    ensures var last, f := LastFixed(types, i), FirstFixed(types, 0);
            Merged(types, m, i) == if last.None? then m else (assert Matches(types[f], m[f]); m[f := Fixed(CopyInto(m[f].chars, TextOf(m[last.value])))])
  {
    hide CopyInto, TextOf;
    if i > 0 {
      MergedLast(types, m, i - 1);
    }
  }

  lemma FixedText(v: Value)
    requires v.Fixed? && ZeroFilled(v) && v.chars != []
    ensures 0 !in TextOf(v)
  {
    OwnText(v.chars);
  }

  lemma MergedSame(types: seq<FieldType>, m: seq<Value>)
    requires |m| == |types| && (forall q {:trigger m[q]} :: 0 <= q < |m| ==> Matches(types[q], m[q])) && AllZeroFilled(m)
    ensures Merged(types, m, |types|) == m <==> LastLikeFirst(types, m)
  {
    hide CopyInto, TextOf, FixedBytes, Merged;
    MergedLast(types, m, |types|);
    var last, f := LastFixed(types, |types|), FirstFixed(types, 0);
    if last.Some? {
      assert Matches(types[f], m[f]) && Matches(types[last.value], m[last.value]);
      assert ZeroFilled(m[f]) && ZeroFilled(m[last.value]);
      FixedText(m[last.value]);
      CopySame(m[f].chars, TextOf(m[last.value]));
      var w := m[f := Fixed(CopyInto(m[f].chars, TextOf(m[last.value])))];
      assert w[f] == m[f] ==> w == m;
    }
  }

  /** In every message, the text of the last fixed string, cut to the room of the first, is the first one's. */
  predicate AllLastLikeFirst(t: Table)
    requires AllRows(t) && Clean(t)
  {
    forall j {:trigger t.messages[j]} :: 0 <= j < |t.messages| ==> (FieldMatches(t, j); LastLikeFirst(t.types, t.messages[j]))
  }

  lemma FieldsFilled(t: Table, j: nat)
    requires AllRows(t) && Clean(t) && j < |t.messages|
    ensures AllZeroFilled(t.messages[j])
  {
    hide GetId, Matches, ZeroFilled;
    forall q | 0 <= q < |t.types|
      ensures ZeroFilled(t.messages[j][q])
    {
      assert GetId(false, t, j, q) == GetId(false, t, j, q);
      assert CleanField(t, j, q);
    }
  }

  lemma WholeSame(t: Table)
    requires AllRows(t) && Clean(t)
    ensures Part(t, |t.messages|, 0) == t <==> AllLastLikeFirst(t)
  {
    hide Clean, Merged, LastLikeFirst;
    var q := Part(t, |t.messages|, 0);
    forall j | 0 <= j < |t.messages|
      ensures q.messages[j] == t.messages[j] <==> (FieldMatches(t, j); LastLikeFirst(t.types, t.messages[j]))
    {
      FieldMatches(t, j);
      FieldsFilled(t, j);
      MergedSame(t.types, t.messages[j]);
    }
    if AllLastLikeFirst(t) {
      assert q.messages == t.messages;
    }
  }

  /** With counted ids, importing an export gives the table in which every message has the text of its last fixed
      string in its first one, as far as it fits. It gives the table itself if and only if in every message that
      is the text the first one has. */
  lemma FixedBack(t: Table, utf8: bool, index: nat)
    requires AllRows(t) && Counted(t) && Clean(t) && (|t.messages| > 0 ==> index < |t.messages|)
    ensures ReadText(Reader(t, index, None, []), TextFrom(t, utf8, false, 0, 0)) == Some(Part(t, |t.messages|, 0))
    ensures ReadText(Reader(t, index, None, []), TextFrom(t, utf8, false, 0, 0)) == Some(t) <==> AllLastLikeFirst(t)
  {
    hide Clean, Counted, ReadText, TextFrom, Part, AllLastLikeFirst;
    PartNone(t);
    ReadRest(Reader(t, index, None, []), t, utf8, 0, 0);
    WholeSame(t);
  }

  /** A table of one message with two fixed strings: the text of the second comes back in the first. */
  lemma FixedLost()
    ensures var types := [FieldType(FixString, 5), FieldType(FixString, 5)];
            var a, b: seq<byte> := [65, 0, 0, 0, 0], [66, 0, 0, 0, 0];
            var t := Table(true, false, 0, 0, 0, types, [[Fixed(a), Fixed(b)]]);
            && CanonicalTypes(types) && AllRows(t)
            && ReadText(Reader(t, 0, None, []), TextFrom(t, false, false, 0, 0)) == Some(t.(messages := [[Fixed(b), Fixed(b)]]))
  {
    hide ReadText, TextFrom, Part, FixedBytes, TextOf, CopyInto, Plain, Clean, AllLastLikeFirst;
    var types := [FieldType(FixString, 5), FieldType(FixString, 5)];
    var a, b: seq<byte> := [65, 0, 0, 0, 0], [66, 0, 0, 0, 0];
    var m := [Fixed(a), Fixed(b)];
    var t := Table(true, false, 0, 0, 0, types, [m]);
    OneLetter(65);
    OneLetter(66);
    LostIsClean(t, a, b);
    FixedBack(t, false, 0);
    LostPart(t, a, b);
  }

  /** A letter in a fixed string of five bytes. */
  lemma OneLetter(x: byte)
    requires 10 < x < 128
    ensures var chars: seq<byte> := [x, 0, 0, 0, 0]; FixedBytes(chars) == chars && TextOf(Fixed(chars)) == [x]
    ensures Plain([x]) && CopyInto([65, 0, 0, 0, 0], [x]) == [x, 0, 0, 0, 0]
  {
    hide FixedBytes, TextOf, CopyInto, Plain;
    LetterFilled(x);
    LetterPlain(x);
    CopyWhole([65, 0, 0, 0, 0], [x]);
    assert Zeros(3) == [0, 0, 0];
    assert [x] + Zeros(3) + [0] == [x, 0, 0, 0, 0];
    assert CutTo([x], 4) == [x];
  }

  lemma LetterFilled(x: byte)
    requires x != 0
    ensures var chars: seq<byte> := [x, 0, 0, 0, 0]; FixedBytes(chars) == chars && TextOf(Fixed(chars)) == [x]
  {
    hide CStringIn;
    var chars: seq<byte> := [x, 0, 0, 0, 0];
    CStringFound([x], [0, 0, 0]);
    CStringFound([x], [0, 0]);
    assert chars == [x] + [0] + [0, 0, 0] && chars[..4] == [x] + [0] + [0, 0];
  }

  lemma LetterPlain(x: byte)
    requires 10 < x < 128
    ensures Plain([x])
  {
    hide SepLength, LineLength;
    LineLetter(x);
    assert [x][..1] == [x];
  }

  lemma LineLetter(x: byte)
    requires x != 10 && x < 128
    ensures LineLength([x]) == 1 && SepLength([x]).None?
  {
    hide Repeat;
    assert LineLength([x][1..]) == 0;
  }

  lemma LostIsClean(t: Table, a: seq<byte>, b: seq<byte>)
    requires t == Table(true, false, 0, 0, 0, [FieldType(FixString, 5), FieldType(FixString, 5)], [[Fixed(a), Fixed(b)]])
    requires |a| == |b| == 5 && FixedBytes(a) == a && FixedBytes(b) == b && Plain(TextOf(Fixed(a))) && Plain(TextOf(Fixed(b)))
    ensures AllRows(t) && Counted(t) && Clean(t) && CanonicalTypes(t.types)
  {
    hide Plain, TextOf, FixedBytes, GetId;
    forall j, i | 0 <= j < |t.messages| && 0 <= i < |t.types|
      ensures CleanField(t, j, i)
    {
    }
  }

  lemma LostPart(t: Table, a: seq<byte>, b: seq<byte>)
    requires t == Table(true, false, 0, 0, 0, [FieldType(FixString, 5), FieldType(FixString, 5)], [[Fixed(a), Fixed(b)]])
    requires |a| == |b| == 5 && AllRows(t) && Clean(t) && CopyInto(a, TextOf(Fixed(b))) == b
    ensures Part(t, 1, 0) == t.(messages := [[Fixed(b), Fixed(b)]])
  {
    hide Clean, TextOf, CopyInto, Merged;
    FieldMatches(t, 0);
    MergedLast(t.types, t.messages[0], 2);
    assert FirstFixed(t.types, 0) == 0 && LastFixed(t.types, 2) == Some(1);
    assert Part(t, 1, 0).messages[0] == Merged(t.types, t.messages[0], 2);
    assert t.messages[0][0 := Fixed(b)] == [Fixed(b), Fixed(b)];
    assert Part(t, 1, 0).messages == [[Fixed(b), Fixed(b)]];
  }
}
