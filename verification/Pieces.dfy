/** Event streams made of runs of one kind and of single marks between them.

    Both the think-tag splitter and the delta coalescer regroup a stream: they may cut a run in two or
    join two runs, but must not lose, reorder or relabel anything. `Flatten` forgets how a stream is cut;
    `Merge` is the canonical way to cut it. The two agree: streams merge to the same pieces exactly when
    they flatten to the same atoms. */
module Pieces {

  datatype Piece<K, C, O> = Run(kind: K, body: seq<C>) | Mark(event: O)

  datatype Atom<K, C, O> = Unit(kind: K, item: C) | Solo(event: O)

  function Tagged<K, C, O>(kind: K, body: seq<C>): (atoms: seq<Atom<K, C, O>>)
    ensures |atoms| == |body|
    ensures forall i | 0 <= i < |body| :: atoms[i] == Unit(kind, body[i])
  {
    if body == [] then [] else Tagged(kind, body[..|body| - 1]) + [Unit(kind, body[|body| - 1])]
  }

  function Atoms<K, C, O>(p: Piece<K, C, O>): seq<Atom<K, C, O>> {
    match p
    case Run(kind, body) => Tagged(kind, body)
    case Mark(event) => [Solo(event)]
  }

  function Flatten<K, C, O>(pieces: seq<Piece<K, C, O>>): seq<Atom<K, C, O>> {
    if pieces == [] then [] else Atoms(pieces[0]) + Flatten(pieces[1..])
  }

  /** Appends a piece, dropping an empty run and extending a last piece of the same kind. */
  function AppendPiece<K(==), C(==), O(==)>(pieces: seq<Piece<K, C, O>>, p: Piece<K, C, O>): seq<Piece<K, C, O>> {
    if p.Run? && p.body == [] then
      pieces
    else if p.Run? && pieces != [] && pieces[|pieces| - 1].Run? && pieces[|pieces| - 1].kind == p.kind then
      pieces[..|pieces| - 1] + [Run(p.kind, pieces[|pieces| - 1].body + p.body)]
    else
      pieces + [p]
  }

  function Merge<K(==), C(==), O(==)>(pieces: seq<Piece<K, C, O>>): seq<Piece<K, C, O>> {
    if pieces == [] then [] else AppendPiece(Merge(pieces[..|pieces| - 1]), pieces[|pieces| - 1])
  }

  /** No empty run, and no two neighbouring runs of one kind. */
  ghost predicate Merged<K, C, O>(pieces: seq<Piece<K, C, O>>) {
    && (forall i | 0 <= i < |pieces| :: pieces[i].Run? ==> pieces[i].body != [])
    && (forall i, j | 0 <= i < j < |pieces| && j == i + 1 ::
          pieces[i].Run? && pieces[j].Run? ==> pieces[i].kind != pieces[j].kind)
  }

  lemma {:induction false} FlattenConcat<K, C, O>(a: seq<Piece<K, C, O>>, b: seq<Piece<K, C, O>>)
    ensures Flatten(a + b) == Flatten(a) + Flatten(b)
  {
    hide Flatten;
    if a == [] {
      assert a + b == b;
      NothingToFlatten<K, C, O>();
    } else {
      FlattenConcat(a[1..], b);
      FlattenStep(a[0], a[1..] + b);
      FlattenStep(a[0], a[1..]);
      assert a == [a[0]] + a[1..] && a + b == [a[0]] + (a[1..] + b);
      var x, y, z := Atoms(a[0]), Flatten(a[1..]), Flatten(b);
      assert (x + y) + z == x + (y + z);
    }
  }

  lemma NothingToFlatten<K, C, O>()
    ensures Flatten<K, C, O>([]) == []
  {
  }

  lemma FlattenStep<K, C, O>(p: Piece<K, C, O>, rest: seq<Piece<K, C, O>>)
    ensures Flatten([p] + rest) == Atoms(p) + Flatten(rest)
  {
    assert ([p] + rest)[1..] == rest;
  }

  lemma FlattenOne<K, C, O>(p: Piece<K, C, O>)
    ensures Flatten([p]) == Atoms(p)
  {
    assert [p][1..] == [];
    assert Flatten<K, C, O>([]) == [];
  }

  lemma TaggedConcat<K, C, O>(kind: K, a: seq<C>, b: seq<C>)
    ensures Tagged<K, C, O>(kind, a + b) == Tagged<K, C, O>(kind, a) + Tagged<K, C, O>(kind, b)
  {
  }

  lemma FlattenSnoc<K, C, O>(front: seq<Piece<K, C, O>>, p: Piece<K, C, O>)
    ensures Flatten(front + [p]) == Flatten(front) + Atoms(p)
  {
    FlattenConcat(front, [p]);
    FlattenOne(p);
  }

  lemma ExtendLastRunContent<K, C, O>(front: seq<Piece<K, C, O>>, kind: K, a: seq<C>, b: seq<C>)
    ensures Flatten(front + [Run(kind, a + b)]) == Flatten(front + [Run(kind, a)]) + Tagged(kind, b)
  {
    hide Flatten;
    FlattenSnoc(front, Run(kind, a));
    FlattenSnoc(front, Run(kind, a + b));
    TaggedConcat<K, C, O>(kind, a, b);
  }

  lemma ExtendLastRun<K, C, O>(front: seq<Piece<K, C, O>>, kind: K, a: seq<C>, b: seq<C>)
    ensures Flatten(front + [Run(kind, a + b)]) == Flatten(front + [Run(kind, a)]) + Tagged(kind, b)
    ensures Merged(front + [Run(kind, a)]) ==> Merged(front + [Run(kind, a + b)])
  {
    ExtendLastRunContent<K, C, O>(front, kind, a, b);
    hide Flatten, Tagged;
    var before, after := front + [Run(kind, a)], front + [Run(kind, a + b)];
    if Merged(before) {
      forall i, j | 0 <= i < j < |after| && j == i + 1
        ensures after[i].Run? && after[j].Run? ==> after[i].kind != after[j].kind
      {
        assert before[i].Run? && before[j].Run? ==> before[i].kind != before[j].kind;
      }
      forall i | 0 <= i < |after|
        ensures after[i].Run? ==> after[i].body != []
      {
        assert before[i].Run? ==> before[i].body != [];
      }
    }
  }

  lemma AppendPieceProperties<K, C, O>(pieces: seq<Piece<K, C, O>>, p: Piece<K, C, O>)
    ensures Flatten(AppendPiece(pieces, p)) == Flatten(pieces) + Atoms(p)
    ensures Merged(pieces) ==> Merged(AppendPiece(pieces, p))
  {
    if p.Run? && p.body == [] {
    } else if p.Run? && pieces != [] && pieces[|pieces| - 1].Run? && pieces[|pieces| - 1].kind == p.kind {
      var front, last := pieces[..|pieces| - 1], pieces[|pieces| - 1];
      assert pieces == front + [last];
      ExtendLastRun(front, p.kind, last.body, p.body);
    } else {
      FlattenSnoc(pieces, p);
    }
  }

  /** Merging keeps the content of a stream and reaches the canonical form. */
  lemma {:induction false} MergeProperties<K, C, O>(pieces: seq<Piece<K, C, O>>)
    ensures Flatten(Merge(pieces)) == Flatten(pieces)
    ensures Merged(Merge(pieces))
  {
    if pieces != [] {
      var front, last := pieces[..|pieces| - 1], pieces[|pieces| - 1];
      assert Merge(pieces) == AppendPiece(Merge(front), last);
      assert pieces == front + [last];
      hide *;
      MergeProperties(front);
      AppendPieceProperties(Merge(front), last);
      FlattenSnoc(front, last);
    }
  }

  lemma FirstAtom<K, C, O>(pieces: seq<Piece<K, C, O>>)
    requires Merged(pieces) && pieces != []
    ensures Flatten(pieces) != []
    ensures Flatten(pieces)[0] ==
            if pieces[0].Run? then Unit(pieces[0].kind, pieces[0].body[0]) else Solo(pieces[0].event)
  {
  }

  lemma AfterFirstRun<K, C, O>(q: seq<Piece<K, C, O>>, item: C)
    requires Merged(q) && q != [] && q[0].Run? && |q[0].body| < |Flatten(q)|
    ensures Flatten(q)[|q[0].body|] != Unit(q[0].kind, item)
  {
    assert Flatten(q)[|q[0].body|..] == Flatten(q[1..]);
    FirstAtom(q[1..]);
  }

  /** In a merged stream the first run is not longer than in another merged stream with the same content. */
  lemma FirstRunNotLonger<K, C, O>(p: seq<Piece<K, C, O>>, q: seq<Piece<K, C, O>>)
    requires Merged(p) && Merged(q) && p != [] && q != []
    requires Flatten(p) == Flatten(q)
    requires p[0].Run? && q[0].Run?
    ensures p[0].kind == q[0].kind && |p[0].body| <= |q[0].body|
  {
    FirstAtom(p);
    FirstAtom(q);
    var n := |q[0].body|;
    if n < |p[0].body| {
      assert Flatten(p)[n] == Unit(p[0].kind, p[0].body[n]);
      AfterFirstRun(q, p[0].body[n]);
    }
  }

  /** The canonical form of a stream is unique. */
  lemma {:induction false} MergedUnique<K, C, O>(p: seq<Piece<K, C, O>>, q: seq<Piece<K, C, O>>)
    requires Merged(p) && Merged(q)
    requires Flatten(p) == Flatten(q)
    ensures p == q
  {
    if p == [] {
      if q != [] { FirstAtom(q); }
    } else if q == [] {
      FirstAtom(p);
    } else {
      FirstAtom(p);
      FirstAtom(q);
      if p[0].Run? {
        FirstRunNotLonger(p, q);
        FirstRunNotLonger(q, p);
        var n := |p[0].body|;
        forall i | 0 <= i < n
          ensures p[0].body[i] == q[0].body[i]
        {
          assert Flatten(p)[i] == Unit(p[0].kind, p[0].body[i]);
          assert Flatten(q)[i] == Unit(q[0].kind, q[0].body[i]);
        }
        assert p[0].body == q[0].body;
      }
      var n := |Atoms(p[0])|;
      assert Flatten(p[1..]) == Flatten(p)[n..] == Flatten(q)[n..] == Flatten(q[1..]);
      MergedUnique(p[1..], q[1..]);
      assert p == [p[0]] + p[1..];
      assert q == [q[0]] + q[1..];
    }
  }

  /** Two streams merge to the same pieces exactly when they hold the same atoms in the same order. */
  lemma MergeEqualIffFlattenEqual<K, C, O>(p: seq<Piece<K, C, O>>, q: seq<Piece<K, C, O>>)
    ensures Merge(p) == Merge(q) <==> Flatten(p) == Flatten(q)
  {
    MergeProperties(p);
    MergeProperties(q);
    if Flatten(p) == Flatten(q) {
      MergedUnique(Merge(p), Merge(q));
    }
  }

  function PieceOf<K, C, O>(atom: Atom<K, C, O>): Piece<K, C, O> {
    match atom
    case Unit(kind, item) => Run(kind, [item])
    case Solo(event) => Mark(event)
  }

  function Pieced<K, C, O>(atoms: seq<Atom<K, C, O>>): seq<Piece<K, C, O>> {
    if atoms == [] then [] else [PieceOf(atoms[0])] + Pieced(atoms[1..])
  }

  /** The canonical pieces of a sequence of atoms. */
  function Group<K(==), C(==), O(==)>(atoms: seq<Atom<K, C, O>>): seq<Piece<K, C, O>> {
    Merge(Pieced(atoms))
  }

  lemma {:induction false} FlattenPieced<K, C, O>(atoms: seq<Atom<K, C, O>>)
    ensures Flatten(Pieced(atoms)) == atoms
  {
    if atoms != [] {
      FlattenPieced(atoms[1..]);
      assert Atoms(PieceOf(atoms[0])) == [atoms[0]];
    }
  }

  /** `Group` is the only merged stream with the given atoms. */
  lemma GroupProperties<K, C, O>(atoms: seq<Atom<K, C, O>>)
    ensures Flatten(Group(atoms)) == atoms
    ensures Merged(Group(atoms))
  {
    FlattenPieced(atoms);
    MergeProperties(Pieced(atoms));
  }

  /** Merging a stream gives the canonical pieces of its content. */
  lemma MergeIsGroup<K, C, O>(pieces: seq<Piece<K, C, O>>)
    ensures Merge(pieces) == Group(Flatten(pieces))
  {
    MergeProperties(pieces);
    GroupProperties(Flatten(pieces));
    MergedUnique(Merge(pieces), Group(Flatten(pieces)));
  }

  /** Emitting one run moves it from the rest of the stream to the merged pieces. */
  lemma MergeRun<K, C, O>(front: seq<Piece<K, C, O>>, kind: K, body: seq<C>, rest: seq<Atom<K, C, O>>)
    ensures Merge(front + [Run(kind, body)]) == AppendPiece(Merge(front), Run(kind, body))
    ensures Flatten(front + [Run(kind, body)]) + rest == Flatten(front) + (Tagged(kind, body) + rest)
  {
    assert (front + [Run(kind, body)])[..|front|] == front;
    FlattenSnoc(front, Run(kind, body));
    var run := Tagged(kind, body);
    assert (Flatten(front) + run) + rest == Flatten(front) + (run + rest);
  }
}
