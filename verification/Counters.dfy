/**
 Dictionaries of counters with one entry for each priority class.
 */
module Counters {
  import opened Traffic

  ghost predicate HasAll<T>(m: map<Priority, T>) {
    Critical in m && High in m && Medium in m && Low in m && Background in m
  }

  function Zeros(): (m: map<Priority, nat>)
    ensures HasAll(m) && Sum(m) == 0
  {
    map[Critical := 0, High := 0, Medium := 0, Low := 0, Background := 0]
  }

  function Sum(m: map<Priority, nat>): nat
    requires HasAll(m)
  {
    m[Critical] + m[High] + m[Medium] + m[Low] + m[Background]
  }

  lemma HasEach<T>(m: map<Priority, T>, p: Priority)
    requires HasAll(m)
    ensures p in m
  {
    match p case Critical => case High => case Medium => case Low => case Background =>
  }

  /** Adds one to the counter of a single class. */
  function Bump(m: map<Priority, nat>, p: Priority): (r: map<Priority, nat>)
    requires HasAll(m)
    ensures HasAll(r)
  {
    HasEach(m, p);
    m[p := m[p] + 1]
  }

  /** Adds one for each element of a list. */
  function Tally(m: map<Priority, nat>, classes: seq<Priority>): (r: map<Priority, nat>)
    requires HasAll(m)
    ensures HasAll(r)
  {
    if classes == [] then m else Bump(Tally(m, classes[..|classes| - 1]), classes[|classes| - 1])
  }

  function CountOf(classes: seq<Priority>, p: Priority): nat {
    if classes == [] then 0
    else CountOf(classes[..|classes| - 1], p) + (if classes[|classes| - 1] == p then 1 else 0)
  }

  /** Each counter grows by the number of its class in the list. */
  lemma {:induction false} TallyCounts(m: map<Priority, nat>, classes: seq<Priority>, p: Priority)
    requires HasAll(m)
    ensures p in m && p in Tally(m, classes) && Tally(m, classes)[p] == m[p] + CountOf(classes, p)
  {
    HasEach(m, p);
    if classes != [] {
      TallyCounts(m, classes[..|classes| - 1], p);
      HasEach(Tally(m, classes[..|classes| - 1]), classes[|classes| - 1]);
    }
  }

  lemma TallyNone(m: map<Priority, nat>)
    requires HasAll(m)
    ensures Tally(m, []) == m
  {
  }

  lemma TallyOneMore(m: map<Priority, nat>, classes: seq<Priority>, p: Priority)
    requires HasAll(m)
    ensures Tally(m, classes + [p]) == Bump(Tally(m, classes), p)
  {
    assert (classes + [p])[..|classes|] == classes;
  }

  lemma BumpAddsOne(m: map<Priority, nat>, p: Priority)
    requires HasAll(m)
    ensures Sum(Bump(m, p)) == Sum(m) + 1
  {
    HasEach(m, p);
    match p case Critical => case High => case Medium => case Low => case Background =>
  }
}
