/**
 * The character index: one summary per record, kept in the index file in the
 * order the list page shows. Everything here is pure list logic; reading and
 * writing the index file is in module Storage.
 */
module CharacterIndex {
  import opened Wrappers
  import opened Js
  import opened Strings
  import opened CharacterTypes
  import opened GameData

  // ---------------------------------------------------------------------------
  // Summaries

  /** The `STYLE_DATA` lookup key of a record's style. */
  function StyleKey(t: Text): string {
    if t.Str? then t.s else ""
  }

  /** The index entry for a record. `now` is the clock reading used when the
      record has no `updatedAt`. */
  function CreateSummary(c: Character, now: string): (r: Summary)
    ensures r.id == c.id && r.element == c.element
    ensures r.characterName != "" && r.species != "" && r.style != ""
    ensures r.characterName == if c.characterName.Truthy() then c.characterName.s else "未設定"
    ensures r.playerName == if c.playerName.Truthy() then c.playerName.s else ""
    ensures r.species == if c.species.Truthy() then c.species.s else "human"
    ensures (c.style.Truthy() ==> r.style == c.style.s) && (!c.style.Truthy() ==> r.style == "enchanter")
    ensures r.updatedAt == if c.updatedAt.Truthy() then c.updatedAt.s else now
    ensures ParseStyle(StyleKey(c.style)).Some? ==>
              var st := ParseStyle(StyleKey(c.style)).value;
              r.hp == HpBase(st) + c.hp.OrZero() && r.mp == MpBase(st) + c.mp.OrZero()
    ensures ParseStyle(StyleKey(c.style)).None? ==> r.hp == c.hp.OrZero() && r.mp == c.mp.OrZero()
    ensures r.wp == c.abilities.passion.total.OrZero() + c.abilities.affection.total.OrZero() + c.wp.OrZero()
  {
    Summary(
      c.id,
      c.characterName.OrElse("未設定"),
      c.playerName.OrElse(""),
      c.species.OrElse("human"),
      c.style.OrElse("enchanter"),
      c.element,
      c.updatedAt.OrElse(now),
      HpBaseOrZero(StyleKey(c.style)) + c.hp.OrZero(),
      MpBaseOrZero(StyleKey(c.style)) + c.mp.OrZero(),
      c.abilities.passion.total.OrZero() + c.abilities.affection.total.OrZero() + c.wp.OrZero())
  }

  // ---------------------------------------------------------------------------
  // Filtering

  /** Sample characters are the ones whose id starts with "sample". */
  predicate IsSample(s: Summary) {
    StartsWith(s.id, "sample")
  }

  /** The selections the index code filters by. */
  datatype Criterion = Samples | Normals | HasId(id: string) | OtherId(id: string) | KeyIs(o: Order, k: string)

  predicate Holds(c: Criterion, s: Summary) {
    match c
    case Samples => IsSample(s)
    case Normals => !IsSample(s)
    case HasId(id) => s.id == id
    case OtherId(id) => s.id != id
    case KeyIs(o, k) => Key(o, s) == k
  }

  /** `xs.filter(...)`: the entries that satisfy `c`, in their order. */
  function Filter(xs: seq<Summary>, c: Criterion): (r: seq<Summary>)
    ensures |r| <= |xs|
  {
    if xs == [] then []
    else (if Holds(c, xs[0]) then [xs[0]] else []) + Filter(xs[1..], c)
  }

  /** The filtered entries are exactly the entries that satisfy `c`. */
  lemma {:induction false} FilterMembers(xs: seq<Summary>, c: Criterion)
    ensures forall y :: y in Filter(xs, c) <==> y in xs && Holds(c, y)
    decreases |xs|
  {
    if xs != [] {
      FilterMembers(xs[1..], c);
      assert xs == [xs[0]] + xs[1..];
    }
  }

  lemma {:induction false} FilterAppend(a: seq<Summary>, b: seq<Summary>, c: Criterion)
    ensures Filter(a + b, c) == Filter(a, c) + Filter(b, c)
    decreases |a|
  {
    if a == [] {
      assert a + b == b;
    } else {
      var h := if Holds(c, a[0]) then [a[0]] else [];
      assert a + b == [a[0]] + (a[1..] + b) && a == [a[0]] + a[1..];
      FilterCons(a[0], a[1..] + b, c);
      FilterCons(a[0], a[1..], c);
      FilterAppend(a[1..], b, c);
      assert h + (Filter(a[1..], c) + Filter(b, c)) == (h + Filter(a[1..], c)) + Filter(b, c);
    }
  }

  /** The samples and the normal characters together are the whole index. */
  lemma {:induction false} FilterPartition(xs: seq<Summary>)
    ensures multiset(Filter(xs, Normals)) + multiset(Filter(xs, Samples)) == multiset(xs)
    decreases |xs|
  {
    if xs != [] {
      FilterPartition(xs[1..]);
      assert xs == [xs[0]] + xs[1..];
    }
  }

  lemma {:induction false} FilterNone(xs: seq<Summary>, c: Criterion)
    requires forall y :: y in xs ==> !Holds(c, y)
    ensures Filter(xs, c) == []
    decreases |xs|
  {
    if xs != [] {
      FilterNone(xs[1..], c);
    }
  }

  /** Filtering by what every entry satisfies changes nothing. */
  lemma {:induction false} FilterAll(xs: seq<Summary>, c: Criterion)
    requires forall y :: y in xs ==> Holds(c, y)
    ensures Filter(xs, c) == xs
    decreases |xs|
  {
    if xs != [] {
      FilterAll(xs[1..], c);
      assert xs == [xs[0]] + xs[1..];
    }
  }

  // ---------------------------------------------------------------------------
  // Stable sorting

  /** The two comparators: ids ascending (samples), `updatedAt` descending (the rest). */
  datatype Order = IdAscending | NewestFirst

  function Key(o: Order, s: Summary): string {
    if o.IdAscending? then s.id else s.updatedAt
  }

  /** `a` sorts strictly before `b`: the comparator is negative. */
  predicate Before(o: Order, a: Summary, b: Summary) {
    if o.IdAscending? then Less(Key(o, a), Key(o, b)) else Less(Key(o, b), Key(o, a))
  }

  lemma BeforeIrreflexive(o: Order, a: Summary)
    ensures !Before(o, a, a)
  {
    LessIrreflexive(Key(o, a));
  }

  lemma BeforeAsymmetric(o: Order, a: Summary, b: Summary)
    ensures Before(o, a, b) ==> !Before(o, b, a)
  {
    LessAsymmetric(Key(o, a), Key(o, b));
    LessAsymmetric(Key(o, b), Key(o, a));
  }

  /** Neither before the other means equal keys. */
  lemma BeforeTotal(o: Order, a: Summary, b: Summary)
    ensures Before(o, a, b) || Before(o, b, a) || Key(o, a) == Key(o, b)
  {
    LessTotal(Key(o, a), Key(o, b));
  }

  /** `x < y <= z` gives `x < z`. */
  lemma BeforeChain(o: Order, x: Summary, y: Summary, z: Summary)
    requires Before(o, x, y) && !Before(o, z, y)
    ensures Before(o, x, z)
  {
    BeforeTotal(o, y, z);
    if Key(o, y) != Key(o, z) {
      if o.IdAscending? {
        LessTransitive(Key(o, x), Key(o, y), Key(o, z));
      } else {
        LessTransitive(Key(o, z), Key(o, y), Key(o, x));
      }
    }
  }

  predicate Sorted(o: Order, xs: seq<Summary>) {
    forall i, j :: 0 <= i < j < |xs| ==> !Before(o, xs[j], xs[i])
  }

  /** Puts `x` after every entry it does not sort strictly before. */
  function Insert(o: Order, x: Summary, ys: seq<Summary>): seq<Summary>
    decreases |ys|
  {
    if ys == [] then [x]
    else if Before(o, x, ys[0]) then [x] + ys
    else [ys[0]] + Insert(o, x, ys[1..])
  }

  /** `Array.prototype.sort` with comparator `o`: a stable sort, which is
      fully determined by the comparator. */
  function Sort(o: Order, xs: seq<Summary>): seq<Summary>
    decreases |xs|
  {
    if xs == [] then [] else Insert(o, xs[|xs| - 1], Sort(o, xs[..|xs| - 1]))
  }

  lemma {:induction false} InsertMultiset(o: Order, x: Summary, ys: seq<Summary>)
    ensures multiset(Insert(o, x, ys)) == multiset(ys) + multiset{x}
    decreases |ys|
  {
    if ys == [] {
    } else if Before(o, x, ys[0]) {
      InsertFronts(o, x, ys);
    } else {
      InsertSkips(o, x, ys);
      InsertMultiset(o, x, ys[1..]);
      var rest := Insert(o, x, ys[1..]);
      assert multiset([ys[0]] + rest) == multiset{ys[0]} + multiset(rest);
      assert multiset(ys) == multiset{ys[0]} + multiset(ys[1..]) by {
        assert ys == [ys[0]] + ys[1..];
      }
    }
  }

  lemma SortedTail(o: Order, ys: seq<Summary>)
    requires Sorted(o, ys) && ys != []
    ensures Sorted(o, ys[1..])
  {
    forall i, j | 0 <= i < j < |ys[1..]| ensures !Before(o, ys[1..][j], ys[1..][i]) {
      assert ys[1..][j] == ys[j + 1] && ys[1..][i] == ys[i + 1];
    }
  }

  lemma {:induction false} InsertSorted(o: Order, x: Summary, ys: seq<Summary>)
    requires Sorted(o, ys)
    ensures Sorted(o, Insert(o, x, ys))
    decreases |ys|
  {
    if ys == [] {
    } else if Before(o, x, ys[0]) {
      InsertSortedFront(o, x, ys);
    } else {
      SortedTail(o, ys);
      InsertSorted(o, x, ys[1..]);
      InsertMultiset(o, x, ys[1..]);
      SortedCons(o, ys[0], Insert(o, x, ys[1..]), x, ys[1..]);
    }
  }

  /** `x` placed before a sorted list whose head it sorts strictly before. */
  lemma InsertSortedFront(o: Order, x: Summary, ys: seq<Summary>)
    requires Sorted(o, ys) && ys != [] && Before(o, x, ys[0])
    ensures Sorted(o, [x] + ys)
  {
    var r := [x] + ys;
    forall j | 1 <= j < |r| ensures !Before(o, r[j], x) {
      var y := ys[j - 1];
      BeforeAsymmetric(o, x, ys[0]);
      if j > 1 && Before(o, y, x) {
        BeforeChain(o, y, x, ys[0]);
      }
    }
    forall i, j | 0 <= i < j < |r| ensures !Before(o, r[j], r[i]) {
      if i > 0 {
        assert r[i] == ys[i - 1] && r[j] == ys[j - 1];
      }
    }
  }

  /** `h` placed before a sorted list of entries from `{x} + tail`, none of
      which sorts strictly before it. */
  lemma SortedCons(o: Order, h: Summary, rest: seq<Summary>, x: Summary, tail: seq<Summary>)
    requires Sorted(o, rest) && multiset(rest) == multiset(tail) + multiset{x}
    requires !Before(o, x, h) && forall i :: 0 <= i < |tail| ==> !Before(o, tail[i], h)
    ensures Sorted(o, [h] + rest)
  {
    var r := [h] + rest;
    forall z | z in rest ensures !Before(o, z, h) {
      assert z in multiset(rest);
      if z != x {
        assert z in tail;
      }
    }
    forall i, j | 0 <= i < j < |r| ensures !Before(o, r[j], r[i]) {
      if i == 0 {
        assert r[j] in rest;
      } else {
        assert r[i] == rest[i - 1] && r[j] == rest[j - 1];
      }
    }
  }

  /** Of the entries with key `k`, the inserted one comes last. */
  lemma {:induction false} InsertStable(o: Order, x: Summary, ys: seq<Summary>, k: string)
    requires Sorted(o, ys)
    ensures Filter(Insert(o, x, ys), KeyIs(o, k)) ==
            if Key(o, x) == k then Filter(ys, KeyIs(o, k)) + [x] else Filter(ys, KeyIs(o, k))
    decreases |ys|
  {
    if ys == [] {
    } else if Before(o, x, ys[0]) {
      InsertStableFront(o, x, ys, k);
    } else {
      SortedTail(o, ys);
      InsertStable(o, x, ys[1..], k);
      InsertStableSkip(o, x, ys, k);
    }
  }

  lemma InsertStableFront(o: Order, x: Summary, ys: seq<Summary>, k: string)
    requires Sorted(o, ys) && ys != [] && Before(o, x, ys[0])
    ensures Filter(Insert(o, x, ys), KeyIs(o, k)) ==
            if Key(o, x) == k then Filter(ys, KeyIs(o, k)) + [x] else Filter(ys, KeyIs(o, k))
  {
    var r := [x] + ys;
    assert Insert(o, x, ys) == r;
    assert r[0] == x && r[1..] == ys;
    if Key(o, x) == k {
      NoKeyAfter(o, x, ys);
      FilterNone(ys, KeyIs(o, k));
    }
  }

  lemma InsertStableSkip(o: Order, x: Summary, ys: seq<Summary>, k: string)
    requires ys != [] && !Before(o, x, ys[0])
    requires Filter(Insert(o, x, ys[1..]), KeyIs(o, k)) ==
             if Key(o, x) == k then Filter(ys[1..], KeyIs(o, k)) + [x] else Filter(ys[1..], KeyIs(o, k))
    ensures Filter(Insert(o, x, ys), KeyIs(o, k)) ==
            if Key(o, x) == k then Filter(ys, KeyIs(o, k)) + [x] else Filter(ys, KeyIs(o, k))
  {
    InsertSkips(o, x, ys);
    FilterConsEither(ys[0], Insert(o, x, ys[1..]), ys[1..], x, KeyIs(o, k), Key(o, x) == k);
    assert [ys[0]] + ys[1..] == ys;
  }

  /** The same entry put in front of two lists whose filters differ by at
      most a last `x` keeps them so. */
  lemma FilterConsEither(y: Summary, a: seq<Summary>, b: seq<Summary>, x: Summary, c: Criterion, cond: bool)
    requires Filter(a, c) == if cond then Filter(b, c) + [x] else Filter(b, c)
    ensures Filter([y] + a, c) == if cond then Filter([y] + b, c) + [x] else Filter([y] + b, c)
  {
    FilterCons(y, a, c);
    FilterCons(y, b, c);
    PrependToEither(if Holds(c, y) then [y] else [], Filter(a, c), Filter(b, c), x, cond);
  }

  /** An entry `x` does not sort before is kept in front of the insertion. */
  lemma InsertSkips(o: Order, x: Summary, ys: seq<Summary>)
    requires ys != [] && !Before(o, x, ys[0])
    ensures Insert(o, x, ys) == [ys[0]] + Insert(o, x, ys[1..])
  {
  }

  /** An entry `x` sorts before goes in front. */
  lemma InsertFronts(o: Order, x: Summary, ys: seq<Summary>)
    requires ys != [] && Before(o, x, ys[0])
    ensures Insert(o, x, ys) == [x] + ys
  {
  }

  /** Putting `h` in front of either outcome of a choice. */
  lemma PrependToEither(h: seq<Summary>, a: seq<Summary>, b: seq<Summary>, x: Summary, cond: bool)
    requires a == if cond then b + [x] else b
    ensures h + a == if cond then (h + b) + [x] else h + b
  {
    if cond {
      assert h + (b + [x]) == (h + b) + [x];
    }
  }

  lemma FilterCons(y: Summary, rest: seq<Summary>, c: Criterion)
    ensures Filter([y] + rest, c) == (if Holds(c, y) then [y] else []) + Filter(rest, c)
  {
    assert ([y] + rest)[1..] == rest;
  }

  /** No entry of a sorted list shares the key of an entry sorting strictly
      before its head. */
  lemma NoKeyAfter(o: Order, x: Summary, ys: seq<Summary>)
    requires Sorted(o, ys) && ys != [] && Before(o, x, ys[0])
    ensures forall y :: y in ys ==> !Holds(KeyIs(o, Key(o, x)), y)
  {
    forall y | y in ys ensures Key(o, y) != Key(o, x) {
      var j :| 0 <= j < |ys| && ys[j] == y;
      if j > 0 {
        BeforeChain(o, x, ys[0], y);
      }
      BeforeIrreflexive(o, x);
    }
  }

  /** The sort result is ordered, holds the same entries, and keeps entries
      with equal keys in their original order. */
  lemma SortCorrect(o: Order, xs: seq<Summary>)
    ensures Sorted(o, Sort(o, xs))
    ensures multiset(Sort(o, xs)) == multiset(xs)
    ensures forall k :: Filter(Sort(o, xs), KeyIs(o, k)) == Filter(xs, KeyIs(o, k))
  {
    SortOrders(o, xs);
    SortPermutes(o, xs);
    forall k ensures Filter(Sort(o, xs), KeyIs(o, k)) == Filter(xs, KeyIs(o, k)) {
      SortStable(o, xs, k);
    }
  }

  /** The last entry is inserted into the sorted rest. */
  lemma SortLast(o: Order, xs: seq<Summary>)
    requires xs != []
    ensures Sort(o, xs) == Insert(o, xs[|xs| - 1], Sort(o, xs[..|xs| - 1]))
  {
  }

  lemma {:induction false} SortOrders(o: Order, xs: seq<Summary>)
    ensures Sorted(o, Sort(o, xs))
    decreases |xs|
  {
    if xs != [] {
      var init, last := xs[..|xs| - 1], xs[|xs| - 1];
      SortLast(o, xs);
      SortOrders(o, init);
      InsertSorted(o, last, Sort(o, init));
    }
  }

  lemma {:induction false} SortPermutes(o: Order, xs: seq<Summary>)
    ensures multiset(Sort(o, xs)) == multiset(xs)
    decreases |xs|
  {
    if xs != [] {
      var init, last := xs[..|xs| - 1], xs[|xs| - 1];
      SortLast(o, xs);
      SortPermutes(o, init);
      InsertMultiset(o, last, Sort(o, init));
      assert multiset(xs) == multiset(init) + multiset{last} by {
        assert xs == init + [last];
      }
    }
  }

  lemma {:induction false} SortStable(o: Order, xs: seq<Summary>, k: string)
    ensures Filter(Sort(o, xs), KeyIs(o, k)) == Filter(xs, KeyIs(o, k))
    decreases |xs|
  {
    if xs != [] {
      var init, last := xs[..|xs| - 1], xs[|xs| - 1];
      SortLast(o, xs);
      SortStable(o, init, k);
      SortOrders(o, init);
      StableStep(o, init, last, Sort(o, init), k);
      assert xs == init + [last];
    }
  }

  /** Inserting `last` into a sorted list with the same `k`-entries as `init`
      gives the `k`-entries of `init + [last]`. */
  lemma StableStep(o: Order, init: seq<Summary>, last: Summary, sorted: seq<Summary>, k: string)
    requires Sorted(o, sorted)
    requires Filter(sorted, KeyIs(o, k)) == Filter(init, KeyIs(o, k))
    ensures Filter(Insert(o, last, sorted), KeyIs(o, k)) == Filter(init + [last], KeyIs(o, k))
  {
    var c := KeyIs(o, k);
    InsertStable(o, last, sorted, k);
    FilterAppend(init, [last], c);
    assert Filter([last], c) == if Key(o, last) == k then [last] else [] by {
      FilterCons(last, [], c);
      assert [last] + [] == [last];
    }
    AppendEither(Filter(init, c), Filter([last], c), last, Key(o, last) == k);
  }

  /** Appending either `[x]` or nothing. */
  lemma AppendEither(f: seq<Summary>, g: seq<Summary>, x: Summary, cond: bool)
    requires g == if cond then [x] else []
    ensures f + g == if cond then f + [x] else f
  {
    if !cond {
      assert f + [] == f;
    }
  }

  /** Sorting what is already sorted changes nothing. */
  lemma {:induction false} SortSorted(o: Order, xs: seq<Summary>)
    requires Sorted(o, xs)
    ensures Sort(o, xs) == xs
    decreases |xs|
  {
    if xs != [] {
      var init, last := xs[..|xs| - 1], xs[|xs| - 1];
      SortLast(o, xs);
      assert Sorted(o, init);
      SortSorted(o, init);
      assert forall i :: 0 <= i < |init| ==> !Before(o, last, init[i]) by {
        forall i | 0 <= i < |init| ensures !Before(o, last, init[i]) {
          assert init[i] == xs[i];
        }
      }
      InsertAtEnd(o, last, init);
      assert init + [last] == xs;
    }
  }

  lemma {:induction false} InsertAtEnd(o: Order, x: Summary, ys: seq<Summary>)
    requires forall i :: 0 <= i < |ys| ==> !Before(o, x, ys[i])
    ensures Insert(o, x, ys) == ys + [x]
    decreases |ys|
  {
    if ys != [] {
      assert !Before(o, x, ys[0]);
      InsertAtEnd(o, x, ys[1..]);
      assert ys == [ys[0]] + ys[1..];
    }
  }

  // ---------------------------------------------------------------------------
  // The index order

  /** `a` may stand before `b` in the index: normal characters first, newest
      first, then the samples by id. */
  predicate InOrder(a: Summary, b: Summary) {
    (IsSample(a) ==> IsSample(b))
    && (!IsSample(a) && !IsSample(b) ==> !Before(NewestFirst, b, a))
    && (IsSample(a) && IsSample(b) ==> !Before(IdAscending, b, a))
  }

  predicate IndexOrdered(xs: seq<Summary>) {
    forall i, j :: 0 <= i < j < |xs| ==> InOrder(xs[i], xs[j])
  }

  /** `sortCharacterIndex`: the normal characters newest first, then the
      samples by id. */
  function SortCharacterIndex(xs: seq<Summary>): seq<Summary> {
    Sort(NewestFirst, Filter(xs, Normals)) + Sort(IdAscending, Filter(xs, Samples))
  }

  /** The index sort yields an ordered index holding the same entries;
      entries of a tier with equal keys keep their relative order. */
  lemma SortCharacterIndexCorrect(xs: seq<Summary>)
    ensures IndexOrdered(SortCharacterIndex(xs))
    ensures multiset(SortCharacterIndex(xs)) == multiset(xs)
    ensures forall k :: Filter(Filter(SortCharacterIndex(xs), Normals), KeyIs(NewestFirst, k))
                        == Filter(Filter(xs, Normals), KeyIs(NewestFirst, k))
    ensures forall k :: Filter(Filter(SortCharacterIndex(xs), Samples), KeyIs(IdAscending, k))
                        == Filter(Filter(xs, Samples), KeyIs(IdAscending, k))
  {
    SortCharacterIndexTiers(xs);
    SortCharacterIndexOrder(xs);
    SortCharacterIndexPermutation(xs);
    SortCharacterIndexStable(xs);
  }

  /** The first part of the sorted index holds the normal characters, the rest the samples. */
  lemma SortCharacterIndexTiers(xs: seq<Summary>)
    ensures forall y :: y in Sort(NewestFirst, Filter(xs, Normals)) ==> !IsSample(y)
    ensures forall y :: y in Sort(IdAscending, Filter(xs, Samples)) ==> IsSample(y)
  {
    FilterMembers(xs, Normals);
    FilterMembers(xs, Samples);
    SortKeeps(NewestFirst, Filter(xs, Normals), Normals);
    SortKeeps(IdAscending, Filter(xs, Samples), Samples);
  }

  /** Sorting only rearranges: whatever held of every entry still does. */
  lemma SortKeeps(o: Order, xs: seq<Summary>, c: Criterion)
    requires forall y :: y in xs ==> Holds(c, y)
    ensures forall y :: y in Sort(o, xs) ==> Holds(c, y)
  {
    SortCorrect(o, xs);
    forall y | y in Sort(o, xs) ensures Holds(c, y) {
      assert y in multiset(Sort(o, xs));
    }
  }

  lemma SortCharacterIndexOrder(xs: seq<Summary>)
    ensures IndexOrdered(SortCharacterIndex(xs))
  {
    SortCharacterIndexTiers(xs);
    SortCorrect(NewestFirst, Filter(xs, Normals));
    SortCorrect(IdAscending, Filter(xs, Samples));
    TiersOrdered(Sort(NewestFirst, Filter(xs, Normals)), Sort(IdAscending, Filter(xs, Samples)));
  }

  lemma SortCharacterIndexPermutation(xs: seq<Summary>)
    ensures multiset(SortCharacterIndex(xs)) == multiset(xs)
  {
    SortCorrect(NewestFirst, Filter(xs, Normals));
    SortCorrect(IdAscending, Filter(xs, Samples));
    FilterPartition(xs);
  }

  lemma SortCharacterIndexStable(xs: seq<Summary>)
    ensures forall k :: Filter(Filter(SortCharacterIndex(xs), Normals), KeyIs(NewestFirst, k))
                        == Filter(Filter(xs, Normals), KeyIs(NewestFirst, k))
    ensures forall k :: Filter(Filter(SortCharacterIndex(xs), Samples), KeyIs(IdAscending, k))
                        == Filter(Filter(xs, Samples), KeyIs(IdAscending, k))
  {
    SortCharacterIndexTiers(xs);
    TiersFilter(Sort(NewestFirst, Filter(xs, Normals)), Sort(IdAscending, Filter(xs, Samples)));
    SortCorrect(NewestFirst, Filter(xs, Normals));
    SortCorrect(IdAscending, Filter(xs, Samples));
  }

  /** Sorted normal characters followed by sorted samples are in index order. */
  lemma TiersOrdered(a: seq<Summary>, b: seq<Summary>)
    requires Sorted(NewestFirst, a) && Sorted(IdAscending, b)
    requires forall y :: y in a ==> !IsSample(y)
    requires forall y :: y in b ==> IsSample(y)
    ensures IndexOrdered(a + b)
  {
    var r := a + b;
    forall i, j | 0 <= i < j < |r| ensures InOrder(r[i], r[j]) {
      if j < |a| {
        assert r[i] == a[i] && r[j] == a[j];
      } else if i >= |a| {
        assert r[i] == b[i - |a|] && r[j] == b[j - |a|];
      } else {
        assert r[i] == a[i] && r[j] == b[j - |a|];
      }
    }
  }

  lemma TiersFilter(a: seq<Summary>, b: seq<Summary>)
    requires forall y :: y in a ==> !IsSample(y)
    requires forall y :: y in b ==> IsSample(y)
    ensures Filter(a + b, Normals) == a && Filter(a + b, Samples) == b
  {
    FilterAll(a, Normals);
    FilterNone(b, Normals);
    FilterAppend(a, b, Normals);
    FilterAll(b, Samples);
    FilterNone(a, Samples);
    FilterAppend(a, b, Samples);
  }

  /** An index that is already in order sorts to itself. */
  lemma SortCharacterIndexOrdered(xs: seq<Summary>)
    requires IndexOrdered(xs)
    ensures SortCharacterIndex(xs) == xs
  {
    var ns, ss := Filter(xs, Normals), Filter(xs, Samples);
    FilterMembers(xs, Normals);
    FilterMembers(xs, Samples);
    OrderedSplit(xs);
    FilterOrdered(xs, Normals);
    FilterOrdered(xs, Samples);
    assert Sorted(NewestFirst, ns) by {
      forall i, j | 0 <= i < j < |ns| ensures !Before(NewestFirst, ns[j], ns[i]) {
        assert InOrder(ns[i], ns[j]) && ns[i] in ns && ns[j] in ns;
      }
    }
    assert Sorted(IdAscending, ss) by {
      forall i, j | 0 <= i < j < |ss| ensures !Before(IdAscending, ss[j], ss[i]) {
        assert InOrder(ss[i], ss[j]) && ss[i] in ss && ss[j] in ss;
      }
    }
    SortSorted(NewestFirst, ns);
    SortSorted(IdAscending, ss);
  }

  lemma IndexOrderedTail(xs: seq<Summary>)
    requires IndexOrdered(xs) && xs != []
    ensures IndexOrdered(xs[1..])
  {
    forall i, j | 0 <= i < j < |xs[1..]| ensures InOrder(xs[1..][i], xs[1..][j]) {
      assert xs[1..][i] == xs[i + 1] && xs[1..][j] == xs[j + 1];
    }
  }

  /** An ordered index is its normal characters followed by its samples. */
  lemma {:induction false} OrderedSplit(xs: seq<Summary>)
    requires IndexOrdered(xs)
    ensures xs == Filter(xs, Normals) + Filter(xs, Samples)
    decreases |xs|
  {
    if xs != [] {
      var h, rest := xs[0], xs[1..];
      IndexOrderedTail(xs);
      OrderedSplit(rest);
      if IsSample(h) {
        SamplesAfterSample(xs);
        FilterNone(rest, Normals);
        FilterAll(rest, Samples);
      }
      SplitCons(h, rest);
      assert xs == [h] + rest;
    }
  }

  /** In an ordered index nothing but samples follows a sample. */
  lemma SamplesAfterSample(xs: seq<Summary>)
    requires IndexOrdered(xs) && xs != [] && IsSample(xs[0])
    ensures forall y :: y in xs[1..] ==> IsSample(y)
  {
    forall y | y in xs[1..] ensures IsSample(y) {
      var m :| 0 <= m < |xs[1..]| && xs[1..][m] == y;
      assert InOrder(xs[0], xs[m + 1]);
    }
  }

  /** An entry put in front of a split list keeps it split, provided a
      sample is followed only by samples. */
  lemma SplitCons(h: Summary, rest: seq<Summary>)
    requires rest == Filter(rest, Normals) + Filter(rest, Samples)
    requires IsSample(h) ==> Filter(rest, Normals) == [] && Filter(rest, Samples) == rest
    ensures [h] + rest == Filter([h] + rest, Normals) + Filter([h] + rest, Samples)
  {
    FilterCons(h, rest, Normals);
    FilterCons(h, rest, Samples);
    if IsSample(h) {
      var none: seq<Summary> := [];
      assert none + none == none && none + ([h] + rest) == [h] + rest;
    } else {
      var n, m := Filter(rest, Normals), Filter(rest, Samples);
      assert ([h] + n) + ([] + m) == [h] + (n + m);
    }
  }

  /** Removing entries keeps an ordered index ordered. */
  lemma {:induction false} FilterOrdered(xs: seq<Summary>, c: Criterion)
    requires IndexOrdered(xs)
    ensures IndexOrdered(Filter(xs, c))
    decreases |xs|
  {
    if xs != [] {
      var tail := Filter(xs[1..], c);
      IndexOrderedTail(xs);
      FilterOrdered(xs[1..], c);
      if Holds(c, xs[0]) {
        HeadInOrder(xs);
        FilterMembers(xs[1..], c);
        OrderedCons(xs[0], tail);
      } else {
        var none: seq<Summary> := [];
        assert none + tail == tail;
      }
    }
  }

  /** The head of an ordered index is in order with every later entry. */
  lemma HeadInOrder(xs: seq<Summary>)
    requires IndexOrdered(xs) && xs != []
    ensures forall y :: y in xs[1..] ==> InOrder(xs[0], y)
  {
    forall y | y in xs[1..] ensures InOrder(xs[0], y) {
      var m :| 0 <= m < |xs[1..]| && xs[1..][m] == y;
      assert xs[m + 1] == y;
    }
  }

  /** An entry in order with every entry of an ordered index may go in front. */
  lemma OrderedCons(h: Summary, t: seq<Summary>)
    requires IndexOrdered(t) && forall y :: y in t ==> InOrder(h, y)
    ensures IndexOrdered([h] + t)
  {
    var r := [h] + t;
    forall i, j | 0 <= i < j < |r| ensures InOrder(r[i], r[j]) {
      if i == 0 {
        assert r[j] == t[j - 1];
      } else {
        assert r[i] == t[i - 1] && r[j] == t[j - 1];
      }
    }
  }

  // ---------------------------------------------------------------------------
  // Updating the index

  /** `findIndex` by id: the first position holding `id`. */
  function FindIndex(xs: seq<Summary>, id: string): (r: Option<nat>)
    ensures r.Some? ==> r.value < |xs| && xs[r.value].id == id
    ensures r.Some? ==> forall j :: 0 <= j < r.value ==> xs[j].id != id
    ensures r.None? <==> forall j :: 0 <= j < |xs| ==> xs[j].id != id
  {
    if xs == [] then None
    else if xs[0].id == id then Some(0)
    else
      match FindIndex(xs[1..], id)
      case None => None
      case Some(i) => Some(i + 1)
  }

  /** Replaces the first entry with `s`'s id, or appends `s`. */
  function Upsert(xs: seq<Summary>, s: Summary): (r: seq<Summary>)
    ensures s in r
    ensures |r| == if FindIndex(xs, s.id).Some? then |xs| else |xs| + 1
  {
    match FindIndex(xs, s.id)
    case Some(i) => assert xs[i := s][i] == s; xs[i := s]
    case None => xs + [s]
  }

  /** What the index holds after a record is saved. */
  function SaveToIndex(xs: seq<Summary>, s: Summary): seq<Summary> {
    SortCharacterIndex(Upsert(xs, s))
  }

  /** What the index holds after a record is deleted: the order is kept, no
      re-sort. */
  function RemoveFromIndex(xs: seq<Summary>, id: string): (r: seq<Summary>)
    ensures forall y :: y in r <==> y in xs && y.id != id
  {
    FilterMembers(xs, OtherId(id));
    Filter(xs, OtherId(id))
  }

  predicate UniqueIds(xs: seq<Summary>) {
    forall i, j :: 0 <= i < j < |xs| ==> xs[i].id != xs[j].id
  }

  /** Entries with other ids are kept in place; `s` replaces the first entry
      with its id, or is added last. */
  lemma UpsertOthers(xs: seq<Summary>, s: Summary)
    ensures Filter(Upsert(xs, s), OtherId(s.id)) == Filter(xs, OtherId(s.id))
    ensures forall y :: y in Upsert(xs, s) ==> y == s || y in xs
  {
    var c := OtherId(s.id);
    match FindIndex(xs, s.id)
    case None =>
      FilterAppend(xs, [s], c);
    case Some(i) =>
      var r := xs[i := s];
      assert xs == xs[..i] + [xs[i]] + xs[i + 1..];
      assert r == xs[..i] + [s] + xs[i + 1..];
      FilterAppend(xs[..i] + [xs[i]], xs[i + 1..], c);
      FilterAppend(xs[..i], [xs[i]], c);
      FilterAppend(xs[..i] + [s], xs[i + 1..], c);
      FilterAppend(xs[..i], [s], c);
  }

  /** Saving into an index with one entry per id keeps one entry per id, and
      the saved summary is the entry for its id. */
  lemma UpsertUnique(xs: seq<Summary>, s: Summary)
    requires UniqueIds(xs)
    ensures UniqueIds(Upsert(xs, s))
    ensures forall y :: y in Upsert(xs, s) && y.id == s.id ==> y == s
  {
    UpsertOthers(xs, s);
    var r := Upsert(xs, s);
    match FindIndex(xs, s.id)
    case None =>
    case Some(i) =>
      forall a, b | 0 <= a < b < |r| ensures r[a].id != r[b].id {
        if a != i && b != i {
          assert r[a] == xs[a] && r[b] == xs[b];
        }
      }
      forall y | y in r && y.id == s.id ensures y == s {
        var a :| 0 <= a < |r| && r[a] == y;
      }
  }

  /** Sorting keeps one entry per id. */
  lemma {:induction false} SortUnique(o: Order, xs: seq<Summary>)
    requires UniqueIds(xs)
    ensures UniqueIds(Sort(o, xs))
    decreases |xs|
  {
    if xs != [] {
      var init, last := xs[..|xs| - 1], xs[|xs| - 1];
      SortUnique(o, init);
      SortCorrect(o, init);
      var ys := Sort(o, init);
      forall y | y in ys ensures y.id != last.id {
        assert y in multiset(init);
        var j :| 0 <= j < |init| && init[j] == y;
        assert xs[j] == y;
      }
      InsertUnique(o, last, ys);
    }
  }

  lemma {:induction false} InsertUnique(o: Order, x: Summary, ys: seq<Summary>)
    requires UniqueIds(ys) && forall y :: y in ys ==> y.id != x.id
    ensures UniqueIds(Insert(o, x, ys))
    decreases |ys|
  {
    if ys == [] {
    } else if Before(o, x, ys[0]) {
      InsertFronts(o, x, ys);
      UniqueCons(x, ys);
    } else {
      InsertSkips(o, x, ys);
      UniqueTail(ys);
      InsertUnique(o, x, ys[1..]);
      InsertMultiset(o, x, ys[1..]);
      var rest := Insert(o, x, ys[1..]);
      forall z | z in rest ensures z.id != ys[0].id {
        assert z in multiset(rest);
      }
      UniqueCons(ys[0], rest);
    }
  }

  /** An entry whose id no other has can go in front. */
  lemma UniqueCons(y: Summary, rest: seq<Summary>)
    requires UniqueIds(rest) && forall z :: z in rest ==> z.id != y.id
    ensures UniqueIds([y] + rest)
  {
    var r := [y] + rest;
    forall a, b | 0 <= a < b < |r| ensures r[a].id != r[b].id {
      if a > 0 {
        assert r[a] == rest[a - 1] && r[b] == rest[b - 1];
      } else {
        assert r[b] in rest;
      }
    }
  }

  /** The head's id is not used again, and the tail has one entry per id. */
  lemma UniqueTail(ys: seq<Summary>)
    requires UniqueIds(ys) && ys != []
    ensures UniqueIds(ys[1..])
    ensures forall z :: z in ys[1..] ==> z.id != ys[0].id
  {
    var t := ys[1..];
    forall a, b | 0 <= a < b < |t| ensures t[a].id != t[b].id {
      assert t[a] == ys[a + 1] && t[b] == ys[b + 1];
    }
    forall z | z in t ensures z.id != ys[0].id {
      var m :| 0 <= m < |t| && t[m] == z;
      assert ys[m + 1] == z;
    }
  }

  lemma {:induction false} FilterUnique(xs: seq<Summary>, c: Criterion)
    requires UniqueIds(xs)
    ensures UniqueIds(Filter(xs, c))
    decreases |xs|
  {
    if xs != [] {
      UniqueTail(xs);
      FilterUnique(xs[1..], c);
      FilterMembers(xs[1..], c);
      FilterCons(xs[0], xs[1..], c);
      assert [xs[0]] + xs[1..] == xs;
      if Holds(c, xs[0]) {
        UniqueCons(xs[0], Filter(xs[1..], c));
      }
    }
  }

  /** Two different entries of an index with unique ids have different ids. */
  lemma UniqueMembers(xs: seq<Summary>, y: Summary, z: Summary)
    requires UniqueIds(xs) && y in xs && z in xs && y != z
    ensures y.id != z.id
  {
    var a :| 0 <= a < |xs| && xs[a] == y;
    var b :| 0 <= b < |xs| && xs[b] == z;
    assert a != b;
    if a > b {
      assert xs[b].id != xs[a].id;
    }
  }

  lemma SortCharacterIndexUnique(xs: seq<Summary>)
    requires UniqueIds(xs)
    ensures UniqueIds(SortCharacterIndex(xs))
  {
    var ns, ss := Filter(xs, Normals), Filter(xs, Samples);
    FilterUnique(xs, Normals);
    FilterUnique(xs, Samples);
    SortUnique(NewestFirst, ns);
    SortUnique(IdAscending, ss);
    SortCharacterIndexTiers(xs);
    FilterMembers(xs, Normals);
    FilterMembers(xs, Samples);
    SortMembers(NewestFirst, ns);
    SortMembers(IdAscending, ss);
    TiersUnique(xs, Sort(NewestFirst, ns), Sort(IdAscending, ss));
  }

  lemma SortMembers(o: Order, xs: seq<Summary>)
    ensures forall y :: y in Sort(o, xs) <==> y in xs
  {
    SortCorrect(o, xs);
    forall y ensures y in Sort(o, xs) <==> y in xs {
      assert y in Sort(o, xs) <==> y in multiset(Sort(o, xs));
      assert y in xs <==> y in multiset(xs);
    }
  }

  /** Two lists drawn from a list with unique ids, with no entry in common,
      together have unique ids. */
  lemma TiersUnique(xs: seq<Summary>, a: seq<Summary>, b: seq<Summary>)
    requires UniqueIds(xs) && UniqueIds(a) && UniqueIds(b)
    requires forall y :: y in a ==> y in xs && !IsSample(y)
    requires forall z :: z in b ==> z in xs && IsSample(z)
    ensures UniqueIds(a + b)
  {
    var r := a + b;
    forall i, j | 0 <= i < j < |r| ensures r[i].id != r[j].id {
      if j < |a| {
        assert r[i] == a[i] && r[j] == a[j];
      } else if i >= |a| {
        assert r[i] == b[i - |a|] && r[j] == b[j - |a|];
      } else {
        var y, z := a[i], b[j - |a|];
        UniqueMembers(xs, y, z);
        assert r[i] == y && r[j] == z;
      }
    }
  }

  /** After a save the index is in order, holds the saved summary, and still
      has one entry per id; no entry of another record is lost. */
  lemma SaveToIndexCorrect(xs: seq<Summary>, s: Summary)
    requires UniqueIds(xs)
    ensures IndexOrdered(SaveToIndex(xs, s))
    ensures UniqueIds(SaveToIndex(xs, s))
    ensures s in SaveToIndex(xs, s)
    ensures forall y :: y in SaveToIndex(xs, s) && y.id == s.id ==> y == s
    ensures forall y :: y in xs && y.id != s.id ==> y in SaveToIndex(xs, s)
  {
    var u := Upsert(xs, s);
    UpsertUnique(xs, s);
    UpsertOthers(xs, s);
    SortCharacterIndexCorrect(u);
    SortCharacterIndexUnique(u);
    var r := SaveToIndex(xs, s);
    assert s in multiset(r);
    FilterMembers(xs, OtherId(s.id));
    FilterMembers(u, OtherId(s.id));
    forall y | y in xs && y.id != s.id ensures y in r {
      assert y in Filter(xs, OtherId(s.id));
      assert y in u;
      assert y in multiset(r);
    }
    forall y | y in r && y.id == s.id ensures y == s {
      assert y in multiset(u);
    }
  }

  /** Deleting keeps an ordered index ordered, so the missing re-sort is harmless. */
  lemma RemoveFromIndexOrdered(xs: seq<Summary>, id: string)
    requires IndexOrdered(xs)
    ensures IndexOrdered(RemoveFromIndex(xs, id))
    ensures SortCharacterIndex(RemoveFromIndex(xs, id)) == RemoveFromIndex(xs, id)
  {
    FilterOrdered(xs, OtherId(id));
    SortCharacterIndexOrdered(RemoveFromIndex(xs, id));
  }

  /** Deleting a record that was just added gives the previous index back. */
  lemma RemoveUpsertNew(xs: seq<Summary>, s: Summary)
    requires FindIndex(xs, s.id).None?
    ensures RemoveFromIndex(Upsert(xs, s), s.id) == Filter(xs, OtherId(s.id)) == xs
  {
    FilterAppend(xs, [s], OtherId(s.id));
    FilterAll(xs, OtherId(s.id));
  }

  // ---------------------------------------------------------------------------
  // De-duplication (the rebuild's `new Map(...)`)

  /** `Array.from(new Map(xs.map(s => [s.id, s])).values())`: the first
      position of each id, holding its last summary. */
  function Dedupe(xs: seq<Summary>): seq<Summary>
    decreases |xs|
  {
    if xs == [] then [] else Upsert(Dedupe(xs[..|xs| - 1]), xs[|xs| - 1])
  }

  /** The last entry of `xs` with id `id`. */
  function LastWithId(xs: seq<Summary>, id: string): (r: Option<Summary>)
    ensures r.Some? ==> r.value in xs && r.value.id == id
    ensures r.None? <==> forall j :: 0 <= j < |xs| ==> xs[j].id != id
    decreases |xs|
  {
    if xs == [] then None
    else if xs[|xs| - 1].id == id then Some(xs[|xs| - 1])
    else LastWithId(xs[..|xs| - 1], id)
  }

  /** One entry per id, an entry for every id, and it is that id's last summary. */
  lemma {:induction false} DedupeCorrect(xs: seq<Summary>)
    ensures DedupeOf(xs, Dedupe(xs))
    decreases |xs|
  {
    if xs != [] {
      var init, last := xs[..|xs| - 1], xs[|xs| - 1];
      DedupeCorrect(init);
      assert xs == init + [last];
      DedupeStep(init, last, Dedupe(init));
    }
  }

  /** The entries of `new Map(...).values()` come in the order in which their
      ids first appear in the listing. */
  lemma {:induction false} DedupeFirstSeen(xs: seq<Summary>)
    ensures IdsOf(Dedupe(xs)) == FirstSeenIds(xs)
    decreases |xs|
  {
    if xs != [] {
      var init, last := xs[..|xs| - 1], xs[|xs| - 1];
      DedupeFirstSeen(init);
      IdsOfUpsert(Dedupe(init), last);
    }
  }

  /** The ids of `d`, position by position. */
  function IdsOf(d: seq<Summary>): (r: seq<string>)
    ensures |r| == |d| && forall i :: 0 <= i < |d| ==> r[i] == d[i].id
  {
    seq(|d|, i requires 0 <= i < |d| => d[i].id)
  }

  /** Each id of `xs` once, where it first appears. */
  function FirstSeenIds(xs: seq<Summary>): (r: seq<string>)
    decreases |xs|
  {
    if xs == [] then []
    else
      var seen := FirstSeenIds(xs[..|xs| - 1]);
      if xs[|xs| - 1].id in seen then seen else seen + [xs[|xs| - 1].id]
  }

  /** `FirstSeenIds` holds exactly the ids that occur in `xs`. */
  lemma {:induction false} FirstSeenIdsMembers(xs: seq<Summary>)
    ensures forall id :: id in FirstSeenIds(xs) <==> exists y :: y in xs && y.id == id
    decreases |xs|
  {
    if xs != [] {
      var init, last := xs[..|xs| - 1], xs[|xs| - 1];
      FirstSeenIdsMembers(init);
      assert xs == init + [last];
      forall id | exists y :: y in xs && y.id == id ensures id in FirstSeenIds(xs) {
        var y :| y in xs && y.id == id;
        if y != last { assert y in init; }
      }
    }
  }

  /** Replacing an entry keeps the ids in place; appending adds one last. */
  lemma IdsOfUpsert(d: seq<Summary>, s: Summary)
    ensures IdsOf(Upsert(d, s)) == if s.id in IdsOf(d) then IdsOf(d) else IdsOf(d) + [s.id]
  {
    match FindIndex(d, s.id)
    case Some(k) =>
      assert IdsOf(d)[k] == s.id;
      assert IdsOf(Upsert(d, s)) == IdsOf(d);
    case None =>
      assert s.id !in IdsOf(d);
      assert IdsOf(Upsert(d, s)) == IdsOf(d) + [s.id];
  }

  /** `d` has one entry per id of `xs`, the last one for that id. */
  predicate DedupeOf(xs: seq<Summary>, d: seq<Summary>) {
    && UniqueIds(d)
    && (forall y :: y in d ==> LastWithId(xs, y.id) == Some(y))
    && (forall y :: y in xs ==> exists z :: z in d && z.id == y.id)
  }

  lemma DedupeStep(init: seq<Summary>, last: Summary, d: seq<Summary>)
    requires DedupeOf(init, d)
    ensures DedupeOf(init + [last], Upsert(d, last))
  {
    var xs := init + [last];
    assert xs[..|xs| - 1] == init;
    UpsertUnique(d, last);
    UpsertOthers(d, last);
    FilterMembers(d, OtherId(last.id));
    FilterMembers(Upsert(d, last), OtherId(last.id));
    var r := Upsert(d, last);
    forall y | y in r ensures LastWithId(xs, y.id) == Some(y) {
      if y.id != last.id {
        assert y in d;
        assert LastWithId(xs, y.id) == LastWithId(init, y.id);
      }
    }
    forall y | y in xs ensures exists z :: z in r && z.id == y.id {
      if y.id == last.id {
        assert last in r;
      } else {
        assert y in init;
        var z :| z in d && z.id == y.id;
        assert z in Filter(d, OtherId(last.id));
        assert z in r;
      }
    }
  }

  /** The rebuilt index: de-duplicated by id, then newest first. */
  function RebuildOrder(xs: seq<Summary>): seq<Summary> {
    Sort(NewestFirst, Dedupe(xs))
  }

  lemma RebuildOrderCorrect(xs: seq<Summary>)
    ensures Sorted(NewestFirst, RebuildOrder(xs))
    ensures UniqueIds(RebuildOrder(xs))
    ensures forall y :: y in RebuildOrder(xs) ==> LastWithId(xs, y.id) == Some(y)
    ensures forall y :: y in xs ==> exists z :: z in RebuildOrder(xs) && z.id == y.id
  {
    DedupeCorrect(xs);
    SortCorrect(NewestFirst, Dedupe(xs));
    SortUnique(NewestFirst, Dedupe(xs));
    forall y | y in RebuildOrder(xs) ensures LastWithId(xs, y.id) == Some(y) {
      assert y in multiset(Dedupe(xs));
    }
    forall y | y in xs ensures exists z :: z in RebuildOrder(xs) && z.id == y.id {
      var z :| z in Dedupe(xs) && z.id == y.id;
      assert z in multiset(RebuildOrder(xs));
    }
  }
}
