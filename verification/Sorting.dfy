/** The order of strings, which is that of Rust's `String` and so of the keys of a `BTreeMap`, and lists in this
    order. */
module Sorting {

  predicate LexLe(a: string, b: string) {
    a == "" || (b != "" && (a[0] < b[0] || (a[0] == b[0] && LexLe(a[1..], b[1..]))))
  }

  lemma {:induction false} LexTotal(a: string, b: string)
    ensures LexLe(a, b) || LexLe(b, a)
  {
    if a != "" && b != "" && a[0] == b[0] { LexTotal(a[1..], b[1..]); }
  }

  lemma {:induction false} LexTransitive(a: string, b: string, c: string)
    requires LexLe(a, b) && LexLe(b, c)
    ensures LexLe(a, c)
  {
    if a != "" && a[0] == b[0] && b[0] == c[0] { LexTransitive(a[1..], b[1..], c[1..]); }
  }

  ghost predicate Sorted(list: seq<string>) {
    forall i, j | 0 <= i < j < |list| :: LexLe(list[i], list[j]) && list[i] != list[j]
  }

  /** Sorted, and with exactly these elements. */
  ghost predicate Lists(list: seq<string>, elements: set<string>) {
    Sorted(list) && forall x :: x in list <==> x in elements
  }

  lemma ListsMeaning(list: seq<string>, elements: set<string>)
    ensures Lists(list, elements) <==> Sorted(list) && forall x :: x in list <==> x in elements
  {
  }

  function Insert(x: string, list: seq<string>): seq<string> {
    if list == [] || LexLe(x, list[0]) then [x] + list else [list[0]] + Insert(x, list[1..])
  }

  lemma {:induction false} InsertSorted(x: string, list: seq<string>)
    requires Sorted(list) && x !in list
    ensures Sorted(Insert(x, list))
    ensures forall y :: y in Insert(x, list) <==> y == x || y in list
  {
    hide LexLe;
    if list == [] {
    } else if LexLe(x, list[0]) {
      forall j | 0 <= j < |list|
        ensures LexLe(x, list[j])
      {
        if j > 0 { LexTransitive(x, list[0], list[j]); }
      }
    } else {
      InsertSorted(x, list[1..]);
      LexTotal(x, list[0]);
      var rest := Insert(x, list[1..]);
      assert list == [list[0]] + list[1..];
      forall j | 0 <= j < |rest|
        ensures LexLe(list[0], rest[j]) && list[0] != rest[j]
      {
        assert rest[j] == x || rest[j] in list[1..];
      }
    }
  }

  /** The sorted list of a set. */
  ghost function InOrder(elements: set<string>): (list: seq<string>)
    ensures Lists(list, elements)
  {
    hide LexLe, Sorted, Insert;
    if elements == {} then
      NothingSorted();
      []
    else
      var x :| x in elements;
      InsertSorted(x, InOrder(elements - {x}));
      Insert(x, InOrder(elements - {x}))
  }

  method Sort(elements: set<string>) returns (list: seq<string>)
    ensures Lists(list, elements) && list == InOrder(elements)
  {
    hide Insert, Sorted;
    list := [];
    var rest := elements;
    assert Sorted([]) by { NothingSorted(); }
    while rest != {}
      invariant rest <= elements && Lists(list, elements - rest)
      decreases rest
    {
      var x :| x in rest;
      InsertSorted(x, list);
      list := Insert(x, list);
      rest := rest - {x};
    }
    assert elements - rest == elements;
    SortedUnique(list, InOrder(elements), elements);
  }

  lemma NothingSorted()
    ensures Sorted([])
  {
  }

  lemma {:induction false} LexAntisymmetric(a: string, b: string)
    requires LexLe(a, b) && LexLe(b, a)
    ensures a == b
  {
    if a != "" {
      LexAntisymmetric(a[1..], b[1..]);
      assert a == [a[0]] + a[1..] && b == [b[0]] + b[1..];
    }
  }

  lemma FirstIsLeast(list: seq<string>, elements: set<string>, x: string)
    requires list != [] && Lists(list, elements) && x in elements
    ensures LexLe(list[0], x)
  {
    hide LexLe;
    if x == list[0] { LexTotal(x, x); }
  }

  lemma RestListed(list: seq<string>, elements: set<string>)
    requires list != [] && Lists(list, elements)
    ensures Lists(list[1..], elements - {list[0]})
  {
    hide LexLe;
  }

  lemma EmptyList(list: seq<string>, elements: set<string>)
    requires Lists(list, elements)
    ensures list == [] <==> elements == {}
  {
    if list != [] { assert list[0] in list; }
  }

  /** A set has one sorted list. */
  lemma {:induction false} SortedUnique(a: seq<string>, b: seq<string>, elements: set<string>)
    requires Lists(a, elements) && Lists(b, elements)
    ensures a == b
  {
    hide LexLe;
    EmptyList(a, elements);
    EmptyList(b, elements);
    if a != [] {
      assert a[0] in elements && b[0] in elements;
      FirstIsLeast(a, elements, b[0]);
      FirstIsLeast(b, elements, a[0]);
      LexAntisymmetric(a[0], b[0]);
      RestListed(a, elements);
      RestListed(b, elements);
      SortedUnique(a[1..], b[1..], elements - {a[0]});
      assert a == [a[0]] + a[1..] && b == [b[0]] + b[1..];
    }
  }
}
