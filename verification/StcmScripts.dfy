/** What a disassembled STCM file is, said of its instructions and of the words of the file alone. */
module StcmScripts {
  import opened Bytes
  import opened Numbers
  import P = StcmParams
  import opened StcmInstructions
  import opened StcmFormat
  import opened StcmStrings
  import opened Trees
  import opened Relink
  import opened TreeEdits
  import opened TreeHeaps
  import opened StcmContexts
  import opened StcmClosure
  import opened StcmPieces
  import opened StcmCuts
  import opened Stcm

  /** A label points to the start of an instruction. */
  ghost predicate ToCode(ctx: Context, l: string)
    reads ctx, ctx.repr
  {
    l in ctx.labels && ctx.labels[l].offset == 0 && ctx.labels[l].item in ctx.repr && ctx.labels[l].item.body.Instruction?
  }

  /** A label points to the start of a data item, or of the string made of one. */
  ghost predicate ToData(ctx: Context, l: string)
    reads ctx, ctx.repr
  {
    && l in ctx.labels && ctx.labels[l].offset == 0 && ctx.labels[l].item in ctx.repr
    && (ctx.labels[l].item.body.Data? || ctx.labels[l].item.body.StringData?)
  }

  /** An instruction follows in the same list. */
  ghost predicate GoesOn(ctx: Context, n: Item)
    reads ctx, ctx.root, ctx.repr, n
  {
    && n.parent != null && (n.parent == ctx.root || n.parent in ctx.repr)
    && exists k: nat :: k + 1 < |n.parent.children| && n.parent.children[k] == n && n.parent.children[k + 1] in ctx.repr && n.parent.children[k + 1].body.Instruction?
  }

  lemma MetMeans(ctx: Context, d: Demand)
    requires ctx.Core() && Met(ctx.shape, ctx.labels, d)
    ensures d.Code? ==> ToCode(ctx, d.lbl)
    ensures d.Datum? ==> ToData(ctx, d.lbl)
    ensures At(PositionsOf(ctx.labels), d.lbl) == ctx.labels[d.lbl].item.position
  {
    hide Live, Placed, Distinct, Leaves, Size, AllRefsKnown, BodyOf, Nodes;
    PositionKeys(ctx.labels);
    BodyIs(ctx, ctx.labels[d.lbl].item);
  }

  lemma FollowedMeans(ctx: Context, n: Item)
    requires ctx.Core() && n in ctx.repr && Followed(ctx.shape, n)
    ensures GoesOn(ctx, n) && Behind(ctx.shape, n).item in ctx.repr && Behind(ctx.shape, n).item.body.Instruction?
  {
    hide Live, Placed, Distinct, Leaves, Size, AllRefsKnown, BodyOf, Nodes, ListOf, Owner, Behind;
    hide ctx.RawsIndexed, ctx.EntriesRight, ctx.LabelsInside;
    var f, root := ctx.shape, ctx.root;
    OwnerIn(f, root, n);
    OwnerLive(f, root, n);
    if Owner(f, root, n) != root {
      LiveListed(f, root, Owner(f, root, n));
    }
    RootList(f, root);
    var list := n.parent.children;
    assert list == ListOf(f, root, Owner(f, root, n));
    BehindItem(f, n);
    BodyIs(ctx, Behind(f, n).item);
    InList(ctx, n);
    var k: nat :| k < |list| && list[k] == n;
    BehindListed(f, root, n, k);
  }

  lemma BehindItem(f: Forest, n: Item)
    ensures Behind(f, n).Cons? ==> Behind(f, n).item in Nodes(f)
  {
    BehindIn(f, n);
  }

  lemma InList(ctx: Context, n: Item)
    requires ctx.Core() && n in ctx.repr
    ensures n.parent != null && n in n.parent.children
  {
    hide Live, Placed, Distinct, Leaves, Size, AllRefsKnown, Nodes, ListOf, Owner;
    hide ctx.RawsIndexed, ctx.EntriesRight, ctx.LabelsInside;
    OwnerIn(ctx.shape, ctx.root, n);
    OwnerLive(ctx.shape, ctx.root, n);
  }

  /** What the parameters of an instruction name is there: data where memory is named, an instruction where code is; the
      called instruction is there, and one follows unless the opcode is 0 or 6. */
  ghost predicate Leads(ctx: Context, n: Item, i: Instr<string>)
    reads ctx, ctx.root, ctx.repr, n
  {
    && (i.target.Call? ==> ToCode(ctx, i.target.target))
    && (forall k {:trigger i.params[k]} :: 0 <= k < |i.params| ==>
         && (i.params[k].Memory? ==> ToData(ctx, i.params[k].target))
         && (i.params[k].InstrPtr0? || i.params[k].InstrPtr1? ==> ToCode(ctx, i.params[k].target)))
    && (i.target.Call? || (i.target.number != 0 && i.target.number != 6) ==> GoesOn(ctx, n))
  }

  /** So it is in a disassembled tree. */
  lemma InstructionLeads(ctx: Context, gs: Guesses, n: Item, i: Instr<string>)
    requires Visitable(ctx, gs, {}) && n in ctx.repr && n.body == Instruction(i)
    ensures Leads(ctx, n, i)
  {
    hide Live, Placed, Distinct, Leaves, Nodes, Heads, Size, AllRefsKnown, Faithful, BodyOf, AllRanged, AllSought, AllGuessed, Behind, Followed;
    hide ctx.RawsIndexed, ctx.EntriesRight, ctx.LabelsInside;
    BodyIs(ctx, n);
    assert Closed(ctx.shape, ctx.labels, n);
    var ds := Demands(i);
    if i.target.Call? {
      assert ds[0] == Code(i.target.target) && Met(ctx.shape, ctx.labels, ds[0]);
      MetMeans(ctx, ds[0]);
    }
    forall k | 0 <= k < |i.params|
      ensures i.params[k].Memory? ==> ToData(ctx, i.params[k].target)
      ensures i.params[k].InstrPtr0? || i.params[k].InstrPtr1? ==> ToCode(ctx, i.params[k].target)
    {
      ParamInAll(i.params, k);
      if ParamDemands(i.params[k]) != [] {
        var d := ParamDemands(i.params[k])[0];
        assert d in ParamDemands(i.params[k]) && d in ds;
        var j :| 0 <= j < |ds| && ds[j] == d;
        assert Met(ctx.shape, ctx.labels, ds[j]);
        MetMeans(ctx, d);
      }
    }
    if i.target.Call? || (i.target.number != 0 && i.target.number != 6) {
      FollowedMeans(ctx, n);
    }
  }

  /** An instruction stands at a file position. */
  ghost predicate CodeAt(ctx: Context, p: nat)
    reads ctx, ctx.repr
  {
    exists m {:trigger m in ctx.repr} :: m in ctx.repr && m.position == p && m.body.Instruction?
  }

  /** A data item, or the string made of one, stands at a file position. */
  ghost predicate DataAt(ctx: Context, p: nat)
    reads ctx, ctx.repr
  {
    exists m {:trigger m in ctx.repr} :: m in ctx.repr && m.position == p && (m.body.Data? || m.body.StringData?)
  }

  lemma LedTo(ctx: Context, l: string, pos: Positions)
    requires ctx.Core() && l in ctx.labels && pos == PositionsOf(ctx.labels)
    ensures l in pos && (ToCode(ctx, l) ==> CodeAt(ctx, pos[l])) && (ToData(ctx, l) ==> DataAt(ctx, pos[l]))
  {
    hide ctx.Core;
  }

  /** A word that names code or data belongs to a parameter that does. */
  lemma ParamOfWord(i: Instr<string>, file: seq<byte>, p: nat, size: nat, pos: Positions, k: nat, t: nat)
    requires SaysInstr(i, file, p, size, pos) && k < |i.params|
    ensures ParamCode(file, p, k, t) ==> (i.params[k].InstrPtr0? || i.params[k].InstrPtr1?) && i.params[k].target in pos && pos[i.params[k].target] == t
    ensures ParamData(file, p, k, t) ==> i.params[k].Memory? && i.params[k].target in pos && pos[i.params[k].target] == t
  {
    hide Four, Says48;
    ParamWords3(i, file, p, size, pos, k);
  }

  /** What the words of an instruction lead to is there. */
  lemma WordsLead(ctx: Context, gs: Guesses, n: Item, i: Instr<string>)
    requires Visitable(ctx, gs, {}) && n in ctx.repr && n.body == Instruction(i)
    ensures exists size :: SaysInstr(i, ctx.file, n.position, size, PositionsOf(ctx.labels))
    ensures forall t {:trigger CodeFrom(ctx.file, n.position, t)} :: CodeFrom(ctx.file, n.position, t) ==> CodeAt(ctx, t)
    ensures forall t {:trigger DataFrom(ctx.file, n.position, t)} :: DataFrom(ctx.file, n.position, t) ==> DataAt(ctx, t)
    ensures CodeSought(ctx.file, ctx.starts, n.position)
  {
    hide Live, Placed, Distinct, Leaves, Nodes, Heads, Size, AllRefsKnown, Faithful, ClosedBut, BodyOf, AllRanged, AllSought, AllGuessed, Behind, SaysInstr, CodeFrom, DataFrom, ToCode, ToData,
         GoesOn, CodeAt, DataAt, CodeSought, Start, PositionsOf;
    hide ctx.RawsIndexed, ctx.EntriesRight, ctx.LabelsInside;
    BodyIs(ctx, n);
    WorkingSays(ctx, gs, n, i, {});
    var p, size := n.position, Size(Sub(ctx.shape, n));
    forall t | CodeFrom(ctx.file, p, t)
      ensures CodeAt(ctx, t)
    {
      CodeLead(ctx, gs, n, i, size, t);
    }
    forall t | DataFrom(ctx.file, p, t)
      ensures DataAt(ctx, t)
    {
      DataLead(ctx, gs, n, i, size, t);
    }
  }

  lemma ParamKnownAt(ctx: Context, i: Instr<string>, k: nat, pos: Positions)
    requires ctx.Core() && k < |i.params| && pos == PositionsOf(ctx.labels)
    requires (i.params[k].Memory? && ToData(ctx, i.params[k].target)) || ((i.params[k].InstrPtr0? || i.params[k].InstrPtr1?) && ToCode(ctx, i.params[k].target))
    ensures i.params[k].target in pos
    ensures i.params[k].Memory? ==> DataAt(ctx, pos[i.params[k].target])
    ensures i.params[k].InstrPtr0? || i.params[k].InstrPtr1? ==> CodeAt(ctx, pos[i.params[k].target])
  {
    hide ctx.Core;
    LedTo(ctx, i.params[k].target, pos);
  }

  lemma DataLead(ctx: Context, gs: Guesses, n: Item, i: Instr<string>, size: nat, t: nat)
    requires Visitable(ctx, gs, {}) && n in ctx.repr && n.body == Instruction(i) && DataFrom(ctx.file, n.position, t)
    requires SaysInstr(i, ctx.file, n.position, size, PositionsOf(ctx.labels))
    ensures DataAt(ctx, t)
  {
    hide Faithful, ClosedBut, AllRanged, AllSought, AllGuessed, ToCode, ToData, GoesOn, CodeAt, DataAt, PositionsOf, ParamData, Four, SaysParam;
    hide ctx.Core;
    InstructionLeads(ctx, gs, n, i);
    var k: nat :| k < Four(ctx.file, n.position + 8) && ParamData(ctx.file, n.position, k, t);
    ParamOfWord(i, ctx.file, n.position, size, PositionsOf(ctx.labels), k, t);
    ParamKnownAt(ctx, i, k, PositionsOf(ctx.labels));
  }

  lemma CodeLead(ctx: Context, gs: Guesses, n: Item, i: Instr<string>, size: nat, t: nat)
    requires Visitable(ctx, gs, {}) && n in ctx.repr && n.body == Instruction(i) && CodeFrom(ctx.file, n.position, t)
    requires SaysInstr(i, ctx.file, n.position, size, PositionsOf(ctx.labels)) && size == Size(Sub(ctx.shape, n))
    ensures CodeAt(ctx, t)
  {
    hide Faithful, ClosedBut, AllRanged, AllSought, AllGuessed, ToCode, ToData, GoesOn, CodeAt, DataAt, PositionsOf, ParamCode, Four, SaysParam, Size, Sub;
    hide ctx.Core;
    InstructionLeads(ctx, gs, n, i);
    var p, pos := n.position, PositionsOf(ctx.labels);
    if i.target.Call? && t == Four(ctx.file, p + 4) {
      LabelsHere(ctx, i.target.target);
      LedTo(ctx, i.target.target, pos);
    } else if FallsThrough(i) && t == p + Four(ctx.file, p + 12) {
      NextThere(ctx, gs, n, i);
    } else {
      var k: nat :| k < Four(ctx.file, p + 8) && ParamCode(ctx.file, p, k, t);
      ParamOfWord(i, ctx.file, p, size, pos, k, t);
      ParamKnownAt(ctx, i, k, pos);
    }
  }

  lemma LabelsHere(ctx: Context, l: string)
    ensures ToCode(ctx, l) ==> l in ctx.labels
  {
  }

  /** What follows an instruction that goes on is where its bytes end. */
  lemma NextThere(ctx: Context, gs: Guesses, n: Item, i: Instr<string>)
    requires Visitable(ctx, gs, {}) && n in ctx.repr && n.body == Instruction(i) && FallsThrough(i)
    ensures CodeAt(ctx, n.position + Size(Sub(ctx.shape, n)))
  {
    hide Live, Placed, Leaves, Nodes, Heads, Size, Sub, AllRefsKnown, Faithful, BodyOf, AllRanged, AllSought, AllGuessed, Behind, Distinct, Start;
    hide ctx.RawsIndexed, ctx.EntriesRight, ctx.LabelsInside;
    BodyIs(ctx, n);
    assert Closed(ctx.shape, ctx.labels, n);
    FollowedMeans(ctx, n);
    BehindStart(ctx.shape, n);
    PlacedAtStart(ctx.shape, n, 0);
    PlacedAtStart(ctx.shape, Behind(ctx.shape, n).item, 0);
  }

  /** Disassembly has begun everywhere it should. */
  ghost predicate Begun(ctx: Context)
    reads ctx, ctx.repr
  {
    && (forall t {:trigger t in ctx.starts.code} :: t in ctx.starts.code ==> CodeAt(ctx, t))
    && (forall t {:trigger t in ctx.starts.data} :: t in ctx.starts.data ==> DataAt(ctx, t))
  }

  lemma {:induction false} StepsThere(ctx: Context, gs: Guesses, p: nat, n: nat)
    requires Visitable(ctx, gs, {}) && Begun(ctx) && CodeSteps(ctx.file, ctx.starts, p, n)
    ensures CodeAt(ctx, p)
    decreases n
  {
    hide Visitable, CodeFrom, CodeSought;
    if n > 0 {
      var q: nat :| CodeFrom(ctx.file, q, p) && CodeSteps(ctx.file, ctx.starts, q, n - 1);
      StepsThere(ctx, gs, q, n - 1);
      var m :| m in ctx.repr && m.position == q && m.body.Instruction?;
      WordsLead(ctx, gs, m, m.body.instr);
    }
  }

  /** What stands in the tree has been asked for. */
  lemma AskedFor(ctx: Context, gs: Guesses, m: Item)
    requires Visitable(ctx, gs, {}) && m in ctx.repr
    ensures m.body.Instruction? ==> CodeSought(ctx.file, ctx.starts, m.position)
    ensures m.body.Data? || m.body.StringData? ==> DataSought(ctx.file, ctx.starts, m.position)
  {
    hide Live, Placed, Leaves, Nodes, Heads, Size, Sub, AllRefsKnown, Faithful, ClosedBut, BodyOf, AllRanged, AllGuessed, Distinct, Start, CodeSought, DataSought;
    hide ctx.RawsIndexed, ctx.EntriesRight, ctx.LabelsInside;
    BodyIs(ctx, m);
    PlacedAtStart(ctx.shape, m, 0);
    assert SoughtItem(ctx.shape, m, ctx.file, ctx.starts);
  }

  /** Exactly what the words of the file lead to, from the exports on, has been disassembled: there is an instruction or a
      data item at a place if and only if it is asked for. */
  lemma ExactlySought(ctx: Context, gs: Guesses, p: nat)
    requires Visitable(ctx, gs, {}) && Begun(ctx)
    ensures CodeAt(ctx, p) <==> CodeSought(ctx.file, ctx.starts, p)
    ensures DataAt(ctx, p) <==> DataSought(ctx.file, ctx.starts, p)
  {
    hide Visitable, CodeFrom, DataFrom, CodeSteps;
    if CodeAt(ctx, p) {
      var m :| m in ctx.repr && m.position == p && m.body.Instruction?;
      AskedFor(ctx, gs, m);
    }
    if DataAt(ctx, p) {
      var m :| m in ctx.repr && m.position == p && (m.body.Data? || m.body.StringData?);
      AskedFor(ctx, gs, m);
    }
    if CodeSought(ctx.file, ctx.starts, p) {
      var n: nat :| CodeSteps(ctx.file, ctx.starts, p, n);
      StepsThere(ctx, gs, p, n);
    }
    if DataSought(ctx.file, ctx.starts, p) && p !in ctx.starts.data {
      var q: nat :| DataFrom(ctx.file, q, p) && CodeSought(ctx.file, ctx.starts, q);
      var n: nat :| CodeSteps(ctx.file, ctx.starts, q, n);
      StepsThere(ctx, gs, q, n);
      var m :| m in ctx.repr && m.position == q && m.body.Instruction?;
      WordsLead(ctx, gs, m, m.body.instr);
    }
  }

  ghost predicate LabelsOwned(ctx: Context)
    reads ctx
  {
    forall l {:trigger ctx.labels[l]} :: l in ctx.labels ==> ctx.labels[l].item in ctx.repr
  }

  /** The words an instruction stands for. */
  ghost predicate Worded(ctx: Context, n: Item, i: Instr<string>)
    requires LabelsOwned(ctx)
    reads ctx, ctx.repr, n
  {
    exists size :: SaysInstr(i, ctx.file, n.position, size, PositionsOf(ctx.labels))
  }

  /** Every instruction is what its words say and leads where it should, and nothing else has been disassembled. */
  ghost predicate Scripted(ctx: Context)
    reads ctx, ctx.root, ctx.repr
  {
    && LabelsOwned(ctx)
    && (forall n {:trigger n in ctx.repr} :: n in ctx.repr && n.body.Instruction? ==> Worded(ctx, n, n.body.instr) && Leads(ctx, n, n.body.instr))
    && (forall p: nat {:trigger CodeAt(ctx, p)} :: CodeAt(ctx, p) <==> CodeSought(ctx.file, ctx.starts, p))
    && (forall p: nat {:trigger DataAt(ctx, p)} :: DataAt(ctx, p) <==> DataSought(ctx.file, ctx.starts, p))
  }

  lemma IsScripted(ctx: Context, gs: Guesses)
    requires Visitable(ctx, gs, {}) && Begun(ctx)
    ensures Scripted(ctx)
  {
    hide Visitable, Begun, Leads, CodeAt, DataAt, CodeSought, DataSought, SaysInstr, PositionsOf, LabelsOwned;
    LabelsIn(ctx, gs);
    forall n | n in ctx.repr && n.body.Instruction?
      ensures Worded(ctx, n, n.body.instr) && Leads(ctx, n, n.body.instr)
    {
      WordsLead(ctx, gs, n, n.body.instr);
      InstructionLeads(ctx, gs, n, n.body.instr);
    }
    forall p: nat
      ensures CodeAt(ctx, p) <==> CodeSought(ctx.file, ctx.starts, p)
      ensures DataAt(ctx, p) <==> DataSought(ctx.file, ctx.starts, p)
    {
      ExactlySought(ctx, gs, p);
    }
  }

  lemma LabelsIn(ctx: Context, gs: Guesses)
    requires Visitable(ctx, gs, {})
    ensures LabelsOwned(ctx)
  {
  }

  /** A data header is readable exactly if its kind is below 255 and its payload is there. */
  lemma DataReadable(b: seq<byte>)
    ensures ReadData(b).Some? <==> |b| >= 16 && Four(b, 0) < 0xff && Four(b, 12) <= |b| - 16
    ensures ReadData(b).Some? ==> |b| >= 16 && ReadData(b).value.kind == Four(b, 0) && ReadData(b).value.offsetUnit == Four(b, 4)
    ensures ReadData(b).Some? ==> |b| >= 16 && ReadData(b).value.field8 == Four(b, 8) && ReadData(b).value.length == Four(b, 12)
  {
    hide Four, De;
    if |b| >= 16 {
      HeaderRead(b);
      WordsAre(b, 4);
      WordsAre(b, 8);
    }
  }

  /** A data item stands for the words at its place. */
  lemma DataWorded(ctx: Context, gs: Guesses, n: Item)
    requires Visitable(ctx, gs, {}) && n in ctx.repr && n.body.Data?
    ensures n.position + 16 <= |ctx.file| && Four(ctx.file, n.position) == n.body.kind && Four(ctx.file, n.position + 4) == n.body.offsetUnit
    ensures Four(ctx.file, n.position + 8) == n.body.field8
  {
    hide Live, Placed, Leaves, Nodes, Heads, Size, AllRefsKnown, ClosedBut, AllRanged, AllSought, AllGuessed, Distinct, Start, Four, Own, Faithful;
    hide ctx.RawsIndexed, ctx.EntriesRight, ctx.LabelsInside;
    SubLive(ctx.shape, ctx.root, n);
    PlacedAtStart(ctx.shape, n, 0);
    FaithfulAt(ctx.shape, n, 0, PositionsOf(ctx.labels), ctx.file);
    var size := Own(n.body) + Size(Sub(ctx.shape, n).kids);
    HeldFour(ctx.file, n.position, n.body.kind, n.body.offsetUnit, n.body.field8, P.Trunc(if size < 16 then 0 else size - 16));
  }
}
