/** The three-tier comparator that `getTodos` and `getTodosUpdatedInLastDays`
    both pass to `Array.prototype.sort`, and that sort itself. The sort is
    stable, so a stable insertion sort gives the same result as the
    platform's for this consistent comparator. */
module Ordering {
  import opened Wrappers
  import opened Types

  /** Urgent first, then High, Medium, Low. */
  function PriorityRank(p: TodoPriority): nat
  {
    match p
    case Urgent => 0
    case High => 1
    case Medium => 2
    case Low => 3
  }

  /** In progress first, then Waiting on others, Stay aware, Pending, Done. */
  function StatusRank(s: TodoStatus): nat
  {
    match s
    case InProgress => 0
    case WaitingOnOthers => 1
    case StayAware => 2
    case Pending => 3
    case Done => 4
  }

  /** The comparator: negative when `a` sorts first, positive when `b` does,
      zero when neither is preferred. Due dates are time values. */
  function Compare(a: Todo, b: Todo): int
  {
    var priorityDiff := PriorityRank(a.priority) - PriorityRank(b.priority);
    if priorityDiff != 0 then priorityDiff
    else
      var statusDiff := StatusRank(a.status) - StatusRank(b.status);
      if statusDiff != 0 then statusDiff
      else if a.dueDate.Some? && b.dueDate.Some? then a.dueDate.value - b.dueDate.value
      else if a.dueDate.Some? && b.dueDate.None? then -1
      else if a.dueDate.None? && b.dueDate.Some? then 1
      else 0
  }

  /** Reference reading of the due-date tier: an earlier date first, a dated
      to-do before an undated one. */
  predicate DueBefore(a: Option<int>, b: Option<int>)
  {
    a.Some? && (b.None? || a.value < b.value)
  }

  /** Reference reading of the whole order, tier by tier. */
  predicate SortsBefore(a: Todo, b: Todo)
  {
    || PriorityRank(a.priority) < PriorityRank(b.priority)
    || (a.priority == b.priority && StatusRank(a.status) < StatusRank(b.status))
    || (a.priority == b.priority && a.status == b.status && DueBefore(a.dueDate, b.dueDate))
  }

  /** Neither is preferred: same priority, same status, and both undated or
      due at the same time. */
  predicate Tied(a: Todo, b: Todo)
  {
    a.priority == b.priority && a.status == b.status && a.dueDate == b.dueDate
  }

  lemma RanksInjective(a: Todo, b: Todo)
    ensures PriorityRank(a.priority) == PriorityRank(b.priority) <==> a.priority == b.priority
    ensures StatusRank(a.status) == StatusRank(b.status) <==> a.status == b.status
  {
  }

  /** The comparator agrees with the tier-by-tier reading and is antisymmetric. */
  lemma CompareMeaning(a: Todo, b: Todo)
    ensures Compare(a, b) < 0 <==> SortsBefore(a, b)
    ensures Compare(a, b) == 0 <==> Tied(a, b)
    ensures Compare(b, a) == -Compare(a, b)
  {
    RanksInjective(a, b);
  }

  /** "Not after" is transitive, so the comparator is a total preorder. */
  lemma CompareTransitive(a: Todo, b: Todo, c: Todo)
    requires Compare(a, b) <= 0 && Compare(b, c) <= 0
    ensures Compare(a, c) <= 0
  {
    RanksInjective(a, b);
    RanksInjective(b, c);
    RanksInjective(a, c);
  }

  ghost predicate Sorted(s: seq<Todo>)
  {
    forall i, j :: 0 <= i < j < |s| ==> Compare(s[i], s[j]) <= 0
  }

  /** In a sorted sequence a to-do that sorts strictly before another stands
      at a smaller index. */
  lemma SortedPlacesBefore(s: seq<Todo>, i: nat, j: nat)
    requires Sorted(s) && i < |s| && j < |s|
    requires SortsBefore(s[i], s[j])
    ensures i < j
  {
    CompareMeaning(s[i], s[j]);
  }

  /** Place `x` in front of the first element it does not sort after. */
  function Insert(x: Todo, s: seq<Todo>): seq<Todo>
  {
    if s == [] then [x]
    else if Compare(x, s[0]) <= 0 then [x] + s
    else [s[0]] + Insert(x, s[1..])
  }

  function InsertPos(x: Todo, s: seq<Todo>): nat
  {
    if s == [] then 0
    else if Compare(x, s[0]) <= 0 then 0
    else 1 + InsertPos(x, s[1..])
  }

  lemma {:induction false} InsertShape(x: Todo, s: seq<Todo>)
    ensures InsertPos(x, s) <= |s|
    ensures Insert(x, s) == s[..InsertPos(x, s)] + [x] + s[InsertPos(x, s)..]
    ensures forall i :: 0 <= i < InsertPos(x, s) ==> Compare(x, s[i]) > 0
    ensures InsertPos(x, s) < |s| ==> Compare(x, s[InsertPos(x, s)]) <= 0
  {
    if s != [] && Compare(x, s[0]) > 0 {
      InsertShape(x, s[1..]);
      var k := InsertPos(x, s[1..]);
      assert s[..k + 1] == [s[0]] + s[1..][..k];
      assert s[k + 1..] == s[1..][k..];
    }
  }

  /** Where each element of the input ends up after an insertion. */
  lemma InsertAt(x: Todo, s: seq<Todo>) returns (p: nat)
    ensures p == InsertPos(x, s) && p <= |s| && |Insert(x, s)| == |s| + 1
    ensures forall i :: 0 <= i < p ==> Insert(x, s)[i] == s[i]
    ensures Insert(x, s)[p] == x
    ensures forall i :: p < i <= |s| ==> Insert(x, s)[i] == s[i - 1]
    ensures forall i :: 0 <= i < p ==> Compare(x, s[i]) > 0
    ensures p < |s| ==> Compare(x, s[p]) <= 0
  {
    InsertShape(x, s);
    p := InsertPos(x, s);
    var r := Insert(x, s);
    assert r == s[..p] + [x] + s[p..];
    forall i | p < i <= |s| ensures r[i] == s[i - 1] {
      assert r[i] == s[p..][i - p - 1];
    }
  }

  lemma {:induction false} InsertElements(x: Todo, s: seq<Todo>)
    ensures multiset(Insert(x, s)) == multiset(s) + multiset{x}
    ensures |Insert(x, s)| == |s| + 1
  {
    if s != [] {
      assert s == [s[0]] + s[1..];
      if Compare(x, s[0]) > 0 {
        InsertElements(x, s[1..]);
        assert multiset(Insert(x, s)) == multiset{s[0]} + multiset(Insert(x, s[1..]));
      } else {
        assert multiset(Insert(x, s)) == multiset{x} + multiset(s);
      }
    }
  }

  lemma InsertKeepsSorted(x: Todo, s: seq<Todo>)
    requires Sorted(s)
    ensures Sorted(Insert(x, s))
  {
    var k := InsertAt(x, s);
    var r := Insert(x, s);
    forall i, j | 0 <= i < j < |r| ensures Compare(r[i], r[j]) <= 0 {
      if j == k {
        CompareMeaning(x, s[i]);
      } else if i == k {
        if j - 1 > k { CompareTransitive(x, s[k], s[j - 1]); }
      } else {
        var i', j' := if i < k then i else i - 1, if j < k then j else j - 1;
        assert r[i] == s[i'] && r[j] == s[j'] && i' < j';
      }
    }
  }

  /** The sort: a permutation of its input, in comparator order. */
  function SortTodos(s: seq<Todo>): (r: seq<Todo>)
    ensures |r| == |s|
    ensures multiset(r) == multiset(s)
    ensures Sorted(r)
  {
    if s == [] then []
    else
      var t := SortTodos(s[1..]);
      InsertElements(s[0], t);
      InsertKeepsSorted(s[0], t);
      assert s == [s[0]] + s[1..];
      assert multiset(s) == multiset{s[0]} + multiset(s[1..]);
      Insert(s[0], t)
  }

  /** Sorting a sorted sequence changes nothing ... */
  lemma {:induction false} SortedIsFixpoint(s: seq<Todo>)
    requires Sorted(s)
    ensures SortTodos(s) == s
  {
    if s != [] {
      assert Sorted(s[1..]);
      SortedIsFixpoint(s[1..]);
      assert s == [s[0]] + s[1..];
    }
  }

  /** ... so sorting is idempotent. */
  lemma SortIdempotent(s: seq<Todo>)
    ensures SortTodos(SortTodos(s)) == SortTodos(s)
  {
    SortedIsFixpoint(SortTodos(s));
  }

  /** The instant by which the store orders a fetch, latest first. */
  datatype TieKey = ByCreatedAt | ByUpdatedAt

  function KeyOf(k: TieKey, t: Todo): int
  {
    match k
    case ByCreatedAt => t.createdAt
    case ByUpdatedAt => t.updatedAt
  }

  /** Tied to-dos appear latest first by the key. */
  ghost predicate TiesByDescending(s: seq<Todo>, k: TieKey)
  {
    forall i, j :: 0 <= i < j < |s| && Compare(s[i], s[j]) == 0 ==> KeyOf(k, s[i]) >= KeyOf(k, s[j])
  }

  /** Inserting a to-do that is latest by the key among those it ties with
      keeps the ties latest first. */
  lemma InsertKeepsTieOrder(x: Todo, t: seq<Todo>, k: TieKey)
    requires TiesByDescending(t, k)
    requires forall y :: y in t && Compare(x, y) == 0 ==> KeyOf(k, x) >= KeyOf(k, y)
    ensures TiesByDescending(Insert(x, t), k)
  {
    var p := InsertAt(x, t);
    var r := Insert(x, t);
    forall i, j | 0 <= i < j < |r| && Compare(r[i], r[j]) == 0 ensures KeyOf(k, r[i]) >= KeyOf(k, r[j]) {
      if j == p {
        CompareMeaning(x, t[i]);
      } else if i == p {
        assert t[j - 1] in t;
      } else {
        var i', j' := if i < p then i else i - 1, if j < p then j else j - 1;
        assert r[i] == t[i'] && r[j] == t[j'] && i' < j';
      }
    }
  }

  /** An element of `s[1..]` stands at some index after the first. */
  lemma InTail(s: seq<Todo>, y: Todo) returns (m: nat)
    requires s != [] && y in multiset(s[1..])
    ensures 1 <= m < |s| && s[m] == y
  {
    var i :| 0 <= i < |s[1..]| && s[1..][i] == y;
    m := i + 1;
  }

  /** Stability: tied to-dos keep the order the fetch gave them. */
  lemma {:induction false} SortKeepsTieOrder(s: seq<Todo>, k: TieKey)
    requires TiesByDescending(s, k)
    ensures TiesByDescending(SortTodos(s), k)
  {
    if s != [] {
      var x := s[0];
      assert TiesByDescending(s[1..], k) by {
        forall i, j | 0 <= i < j < |s[1..]| && Compare(s[1..][i], s[1..][j]) == 0
          ensures KeyOf(k, s[1..][i]) >= KeyOf(k, s[1..][j])
        {
          assert s[1..][i] == s[i + 1] && s[1..][j] == s[j + 1];
        }
      }
      SortKeepsTieOrder(s[1..], k);
      var t := SortTodos(s[1..]);
      forall y | y in t && Compare(x, y) == 0 ensures KeyOf(k, x) >= KeyOf(k, y) {
        assert y in multiset(t);
        var m := InTail(s, y);
      }
      InsertKeepsTieOrder(x, t, k);
    }
  }

  ghost predicate DistinctIds(s: seq<Todo>)
  {
    forall i, j :: 0 <= i < j < |s| ==> s[i].id != s[j].id
  }

  lemma InsertKeepsDistinctIds(x: Todo, t: seq<Todo>)
    requires DistinctIds(t)
    requires forall y :: y in t ==> y.id != x.id
    ensures DistinctIds(Insert(x, t))
  {
    var p := InsertAt(x, t);
    var r := Insert(x, t);
    forall i, j | 0 <= i < j < |r| ensures r[i].id != r[j].id {
      if j == p {
        assert t[i] in t;
      } else if i == p {
        assert t[j - 1] in t;
      } else {
        var i', j' := if i < p then i else i - 1, if j < p then j else j - 1;
        assert r[i] == t[i'] && r[j] == t[j'] && i' < j';
      }
    }
  }

  /** Sorting keeps the ids distinct. */
  lemma {:induction false} SortKeepsDistinctIds(s: seq<Todo>)
    requires DistinctIds(s)
    ensures DistinctIds(SortTodos(s))
  {
    if s != [] {
      assert DistinctIds(s[1..]) by {
        forall i, j | 0 <= i < j < |s[1..]| ensures s[1..][i].id != s[1..][j].id {
          assert s[1..][i] == s[i + 1] && s[1..][j] == s[j + 1];
        }
      }
      SortKeepsDistinctIds(s[1..]);
      var t := SortTodos(s[1..]);
      forall y | y in t ensures y.id != s[0].id {
        assert y in multiset(t);
        var m := InTail(s, y);
      }
      InsertKeepsDistinctIds(s[0], t);
    }
  }

  /** Priority beats due-date presence; among equal priorities the dated
      to-do comes first: A(Low, undated), B(Low, dated), C(Urgent, undated)
      sort to [C, B, A]. */
  lemma PriorityBeatsDueDatePresence(a: Todo, b: Todo, c: Todo)
    requires a.priority == Low && b.priority == Low && c.priority == Urgent
    requires a.status == b.status && b.status == c.status
    requires a.dueDate.None? && b.dueDate.Some? && c.dueDate.None?
    ensures SortTodos([a, b, c]) == [c, b, a]
  {
    assert Compare(b, c) > 0 && Compare(a, c) > 0 && Compare(a, b) > 0;
    assert [a, b, c][1..] == [b, c] && [b, c][1..] == [c] && [c][1..] == [];
    assert SortTodos([c]) == Insert(c, []) == [c];
    assert [c][1..] == [] && [c, b][1..] == [b] && [b][1..] == [];
    assert Insert(b, [c]) == [c] + Insert(b, []) == [c, b];
    assert SortTodos([b, c]) == [c, b];
    assert Insert(a, [b]) == [b] + Insert(a, []) == [b, a];
    assert Insert(a, [c, b]) == [c] + Insert(a, [b]) == [c, b, a];
  }
}
