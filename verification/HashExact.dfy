/** What the body hash can and cannot tell apart (crates/lex-bytecode/src/program.rs:120-245). */
module HashExact {
  import opened Bytecode
  import opened Fusion

  predicate BuildsRecord(op: Op) {
    op.MakeRecord? || op.AllocStackRecord? || op.AllocArenaRecord?
  }

  predicate BuildsTuple(op: Op) {
    op.MakeTuple? || op.AllocStackTuple? || op.AllocArenaTuple?
  }

  predicate Loads(op: Op) {
    op.LoadLocal? || op.TakeLocal?
  }

  /** One op but for where an aggregate is allocated, the numbering of shapes and caches, whether a load moves,
      and the type arithmetic is done at. */
  predicate Alike(a: Op, b: Op, shapes: Shapes)
    requires ShapesKnown([a], shapes) && ShapesKnown([b], shapes)
  {
    assert a in [a] && b in [b];
    || a == b
    || (BuildsRecord(a) && BuildsRecord(b) && shapes[a.shape] == shapes[b.shape])
    || (BuildsTuple(a) && BuildsTuple(b) && a.arity == b.arity)
    || (Loads(a) && Loads(b) && a.i == b.i)
    || (a.GetField? && b.GetField? && a.name == b.name)
    || (Arithmetic(a) && Arithmetic(b) && Generic(a) == Generic(b))
  }

  predicate Rewritten(op: Op) {
    BuildsRecord(op) || BuildsTuple(op) || Loads(op) || op.GetField? || Arithmetic(op)
  }

  lemma RewrittenErased(a: Op, shapes: Shapes)
    requires ShapesKnown([a], shapes)
    ensures a in [a]
    ensures BuildsRecord(a) ==> Erase(a, shapes) == LegacyRecord(shapes[a.shape])
    ensures BuildsTuple(a) ==> Erase(a, shapes) == AsIs(MakeTuple(a.arity))
    ensures Loads(a) ==> Erase(a, shapes) == AsIs(LoadLocal(a.i))
    ensures a.GetField? ==> Erase(a, shapes) == LegacyGetField(a.name)
  {
    assert a in [a];
  }

  lemma OthersErased(a: Op, shapes: Shapes)
    requires ShapesKnown([a], shapes) && !Fused(a) && !Rewritten(a)
    ensures Erase(a, shapes) == AsIs(a)
  {
  }

  predicate Polymorphic(op: Op) {
    || op.NumAdd? || op.NumSub? || op.NumMul? || op.NumDiv? || op.NumMod? || op.NumNeg?
    || op.NumEq? || op.NumLt? || op.NumLe?
  }

  lemma GenericIs(a: Op)
    requires Arithmetic(a)
    ensures Polymorphic(Generic(a))
  {
  }

  lemma PolymorphicOnly(a: Op)
    requires Polymorphic(a)
    ensures Arithmetic(a)
  {
  }

  /** What an op was, read off the form it hashes as. */
  lemma ErasedFrom(a: Op, shapes: Shapes)
    requires ShapesKnown([a], shapes) && !Fused(a)
    ensures a in [a]
    ensures match Erase(a, shapes)
            case LegacyRecord(fields) => BuildsRecord(a) && shapes[a.shape] == fields
            case LegacyGetField(name) => a.GetField? && a.name == name
            case AsIs(op) =>
              if op.MakeTuple? then BuildsTuple(a) && a.arity == op.arity
              else if op.LoadLocal? then Loads(a) && a.i == op.i
              else if Polymorphic(op) then Arithmetic(a) && Generic(a) == op
              else a == op
  {
    hide Erase, Generic, Arithmetic, ShapesKnown, Fused, Polymorphic;
    RewrittenErased(a, shapes);
    if Arithmetic(a) {
      GenericErased(a, shapes);
      GenericIs(a);
    } else if !Rewritten(a) {
      OthersErased(a, shapes);
      if Polymorphic(a) { PolymorphicOnly(a); }
    }
  }

  lemma SameForm(a: Op, b: Op, shapes: Shapes)
    requires ShapesKnown([a], shapes) && ShapesKnown([b], shapes) && !Fused(a) && !Fused(b)
    requires Erase(a, shapes) == Erase(b, shapes)
    ensures Alike(a, b, shapes)
  {
    hide Erase, Generic, Arithmetic, ShapesKnown, Fused, Polymorphic, BuildsRecord, BuildsTuple, Loads;
    ErasedFrom(a, shapes);
    ErasedFrom(b, shapes);
  }

  lemma AlikeErased(a: Op, b: Op, shapes: Shapes)
    requires ShapesKnown([a], shapes) && ShapesKnown([b], shapes) && Alike(a, b, shapes)
    ensures Erase(a, shapes) == Erase(b, shapes)
  {
    hide Erase, Generic, Arithmetic, ShapesKnown, BuildsRecord, BuildsTuple, Loads;
    RewrittenErased(a, shapes);
    RewrittenErased(b, shapes);
    if Arithmetic(a) { GenericErased(a, shapes); }
    if Arithmetic(b) { GenericErased(b, shapes); }
  }

  lemma ErasedExactly(a: Op, b: Op, shapes: Shapes)
    requires ShapesKnown([a], shapes) && ShapesKnown([b], shapes) && !Fused(a) && !Fused(b)
    ensures Erase(a, shapes) == Erase(b, shapes) <==> Alike(a, b, shapes)
  {
    hide *;
    if Erase(a, shapes) == Erase(b, shapes) { SameForm(a, b, shapes); }
    if Alike(a, b, shapes) { AlikeErased(a, b, shapes); }
  }

  /** Unfused bodies feed the hasher the same stream exactly when they are slot by slot alike: nothing else of
      a body escapes its hash. */
  lemma StreamExactly(code: Code, other: Code, shapes: Shapes)
    requires Unfused(code) && Unfused(other) && ShapesKnown(code, shapes) && ShapesKnown(other, shapes)
    ensures (|code| == |other|
             && forall k: nat | k < |code| ::
                  KnownAt(code, shapes, k);
                  KnownAt(other, shapes, k);
                  Alike(code[k], other[k], shapes))
       <==> Stream(code, shapes) == Stream(other, shapes)
  {
    var s, t := Stream(code, shapes), Stream(other, shapes);
    forall k: nat | k < |code| && k < |other|
      ensures ShapesKnown([code[k]], shapes) && ShapesKnown([other[k]], shapes)
      ensures s[k] == t[k] <==> Alike(code[k], other[k], shapes)
    {
      assert code[k] in code && other[k] in other;
      KnownAt(code, shapes, k);
      KnownAt(other, shapes, k);
      ErasedExactly(code[k], other[k], shapes);
    }
    hide Erase, Alike;
  }
}
