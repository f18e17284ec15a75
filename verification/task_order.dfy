/** The orderings `getAllDAta` asks the database for: the sort-key table,
    a comparison of stored values in the database's type order, and a stable
    insertion sort proved to produce a sorted permutation. */
module TaskOrder {
  import opened Wrappers

  type TaskId = nat
  type UserId = string

  /** A task document, with the fields the controller writes and reads. */
  datatype Task = Task(
    title: Option<string>,
    description: Option<string>,
    status: string,
    category: Option<string>,
    dueDate: Option<int>,
    createdAt: Option<int>,
    user: UserId)

  /** The three statuses the status handler and the validators accept. */
  const Statuses: seq<string> := ["pending", "in-progress", "completed"]

  /** A stored task with its id. */
  datatype Doc = Doc(id: TaskId, task: Task)

  datatype Field = CreatedAt | DueDate | StatusField
  datatype Direction = Ascending | Descending
  datatype SortKey = SortKey(field: Field, dir: Direction)

  /** The order used when no `sort` parameter is given. */
  const DefaultOrder: seq<SortKey> := [SortKey(DueDate, Ascending), SortKey(CreatedAt, Descending)]

  /** The order used for an unrecognised `sort` value. */
  const FallbackOrder: seq<SortKey> := [SortKey(CreatedAt, Descending)]

  /** The `sortMap` table of named orders. */
  function NamedOrder(name: string): Option<seq<SortKey>>
  {
    if name == "created" then Some([SortKey(CreatedAt, Descending)])
    else if name == "created:asc" then Some([SortKey(CreatedAt, Ascending)])
    else if name == "due" then Some([SortKey(DueDate, Ascending)])
    else if name == "due:desc" then Some([SortKey(DueDate, Descending)])
    else if name == "status" then Some([SortKey(StatusField, Ascending)])
    else None
  }

  /** The order requested by the `sort` query parameter. */
  function SortOrder(sort: Option<string>): (r: seq<SortKey>)
    ensures !Present(sort) ==> r == DefaultOrder
    ensures Present(sort) && NamedOrder(sort.value).Some? ==> r == NamedOrder(sort.value).value
    ensures Present(sort) && NamedOrder(sort.value).None? ==> r == FallbackOrder
    ensures Present(sort) ==> |r| == 1
  {
    if !Present(sort) then DefaultOrder
    else NamedOrder(sort.value).GetOr(FallbackOrder)
  }

  // ---------------------------------------------------------------------
  // Comparing stored values
  // ---------------------------------------------------------------------

  /** A stored value as the database compares it: a missing field sorts
      before numbers, which sort before strings. Due and creation dates are
      modelled as numbers. */
  datatype Value = Missing | Number(n: int) | Text(s: string)

  function FieldValue(f: Field, t: Task): Value
  {
    match f
    case CreatedAt => if t.createdAt.Some? then Number(t.createdAt.value) else Missing
    case DueDate => if t.dueDate.Some? then Number(t.dueDate.value) else Missing
    case StatusField => Text(t.status)
  }

  function Sign(x: int): int
  {
    if x < 0 then -1 else if x > 0 then 1 else 0
  }

  /** Binary comparison of strings, character by character. */
  function CompareStrings(a: string, b: string): (r: int)
    ensures -1 <= r <= 1
  {
    if a == [] && b == [] then 0
    else if a == [] then -1
    else if b == [] then 1
    else if a[0] != b[0] then Sign(a[0] as int - b[0] as int)
    else CompareStrings(a[1..], b[1..])
  }

  lemma {:induction false} CompareStringsAntisymmetric(a: string, b: string)
    ensures CompareStrings(a, b) == -CompareStrings(b, a)
    ensures CompareStrings(a, b) == 0 <==> a == b
  {
    if a != [] && b != [] && a[0] == b[0] {
      CompareStringsAntisymmetric(a[1..], b[1..]);
      if a[1..] == b[1..] {
        assert a == [a[0]] + a[1..] && b == [b[0]] + b[1..];
      }
    }
  }

  lemma {:induction false} CompareStringsTransitive(a: string, b: string, c: string)
    requires CompareStrings(a, b) <= 0 && CompareStrings(b, c) <= 0
    ensures CompareStrings(a, c) <= 0
  {
    if a != [] && b != [] && c != [] && a[0] == b[0] && b[0] == c[0] {
      CompareStringsTransitive(a[1..], b[1..], c[1..]);
    }
  }

  function Rank(v: Value): int
  {
    match v
    case Missing => 0
    case Number(_) => 1
    case Text(_) => 2
  }

  function CompareValues(a: Value, b: Value): (r: int)
    ensures -1 <= r <= 1
  {
    if Rank(a) != Rank(b) then Sign(Rank(a) - Rank(b))
    else match a
      case Missing => 0
      case Number(x) => Sign(x - b.n)
      case Text(x) => CompareStrings(x, b.s)
  }

  lemma CompareValuesAntisymmetric(a: Value, b: Value)
    ensures CompareValues(a, b) == -CompareValues(b, a)
    ensures CompareValues(a, b) == 0 <==> a == b
  {
    if a.Text? && b.Text? {
      CompareStringsAntisymmetric(a.s, b.s);
    }
  }

  lemma CompareValuesTransitive(a: Value, b: Value, c: Value)
    requires CompareValues(a, b) <= 0 && CompareValues(b, c) <= 0
    ensures CompareValues(a, c) <= 0
  {
    if a.Text? && b.Text? && c.Text? {
      CompareStringsTransitive(a.s, b.s, c.s);
    }
  }

  /** The comparison of two tasks under one key. */
  function CompareBy(k: SortKey, a: Task, b: Task): (r: int)
    ensures -1 <= r <= 1
  {
    var c := CompareValues(FieldValue(k.field, a), FieldValue(k.field, b));
    if k.dir == Ascending then c else -c
  }

  lemma CompareByProperties(k: SortKey, a: Task, b: Task, c: Task)
    ensures CompareBy(k, a, b) == -CompareBy(k, b, a)
    ensures CompareBy(k, a, b) == 0 <==> FieldValue(k.field, a) == FieldValue(k.field, b)
    ensures CompareBy(k, a, b) <= 0 && CompareBy(k, b, c) <= 0 ==> CompareBy(k, a, c) <= 0
  {
    var va, vb, vc := FieldValue(k.field, a), FieldValue(k.field, b), FieldValue(k.field, c);
    CompareValuesAntisymmetric(va, vb);
    if k.dir == Ascending {
      if CompareValues(va, vb) <= 0 && CompareValues(vb, vc) <= 0 {
        CompareValuesTransitive(va, vb, vc);
      }
    } else {
      CompareValuesAntisymmetric(vb, vc);
      CompareValuesAntisymmetric(va, vc);
      if CompareValues(vb, va) <= 0 && CompareValues(vc, vb) <= 0 {
        CompareValuesTransitive(vc, vb, va);
      }
    }
  }

  /** Lexicographic comparison under a list of keys: the first key that
      tells the tasks apart decides. */
  function Compare(order: seq<SortKey>, a: Task, b: Task): (r: int)
    ensures -1 <= r <= 1
  {
    if order == [] then 0
    else
      var c := CompareBy(order[0], a, b);
      if c != 0 then c else Compare(order[1..], a, b)
  }

  lemma {:induction false} CompareAntisymmetric(order: seq<SortKey>, a: Task, b: Task)
    ensures Compare(order, a, b) == -Compare(order, b, a)
  {
    if order != [] {
      CompareByProperties(order[0], a, b, b);
      CompareAntisymmetric(order[1..], a, b);
    }
  }

  lemma {:induction false} CompareTransitive(order: seq<SortKey>, a: Task, b: Task, c: Task)
    requires Compare(order, a, b) <= 0 && Compare(order, b, c) <= 0
    ensures Compare(order, a, c) <= 0
  {
    if order != [] {
      var k := order[0];
      CompareByProperties(k, a, b, c);
      CompareByProperties(k, b, c, a);
      CompareByProperties(k, a, c, b);
      var x, y, z := CompareBy(k, a, b), CompareBy(k, b, c), CompareBy(k, a, c);
      if x == 0 && y == 0 {
        CompareTransitive(order[1..], a, b, c);
      } else if x == 0 {
        assert FieldValue(k.field, a) == FieldValue(k.field, b);
        assert z == y;
      } else if y == 0 {
        assert FieldValue(k.field, b) == FieldValue(k.field, c);
        assert z == x;
      } else {
        assert x < 0 && y < 0;
      }
    }
  }

  // ---------------------------------------------------------------------
  // Sorting
  // ---------------------------------------------------------------------

  predicate Sorted(order: seq<SortKey>, s: seq<Doc>)
  {
    forall j, k :: 0 <= j < k < |s| ==> Compare(order, s[j].task, s[k].task) <= 0
  }

  /** A document that sorts no later than every element of a sorted list
      can be put in front of it. */
  lemma SortedCons(order: seq<SortKey>, x: Doc, s: seq<Doc>)
    requires Sorted(order, s)
    requires forall y :: y in s ==> Compare(order, x.task, y.task) <= 0
    ensures Sorted(order, [x] + s)
  {
    forall j, k | 0 <= j < k < |s| + 1
      ensures Compare(order, ([x] + s)[j].task, ([x] + s)[k].task) <= 0
    {
      if j == 0 {
        assert s[k - 1] in s;
      }
    }
  }

  /** Inserts `d` before the first document that does not sort before it,
      so equal documents keep their input order. */
  function Insert(order: seq<SortKey>, d: Doc, s: seq<Doc>): (r: seq<Doc>)
    requires Sorted(order, s)
    ensures Sorted(order, r)
    ensures multiset(r) == multiset(s) + multiset{d}
  {
    if s == [] || Compare(order, d.task, s[0].task) <= 0 then
      forall y | y in s
        ensures Compare(order, d.task, y.task) <= 0
      {
        var k :| 0 <= k < |s| && s[k] == y;
        if k > 0 {
          CompareTransitive(order, d.task, s[0].task, y.task);
        }
      }
      SortedCons(order, d, s);
      [d] + s
    else
      var rest := Insert(order, d, s[1..]);
      CompareAntisymmetric(order, d.task, s[0].task);
      forall y | y in rest
        ensures Compare(order, s[0].task, y.task) <= 0
      {
        assert y in multiset(rest);
        if y != d {
          assert y in multiset(s[1..]);
          var k :| 0 <= k < |s[1..]| && s[1..][k] == y;
          assert s[k + 1] == y;
        }
      }
      SortedCons(order, s[0], rest);
      assert s == [s[0]] + s[1..];
      [s[0]] + rest
  }

  /** Insertion sort: a sorted permutation of the input. */
  function Sort(order: seq<SortKey>, s: seq<Doc>): (r: seq<Doc>)
    ensures Sorted(order, r)
    ensures multiset(r) == multiset(s)
    ensures |r| == |s|
  {
    if s == [] then []
    else
      assert s == [s[0]] + s[1..];
      Insert(order, s[0], Sort(order, s[1..]))
  }
}
