/**
 * The scroll-spy of the page: which navigation section is highlighted for a
 * given scroll position. The page itself is an input: `Dom` says which
 * section elements are rendered and what their `offsetTop` is.
 */
module ActiveSection {
  import opened Wrappers

  /** A rendered section element: its id and its vertical offset in the page. */
  datatype Section = Section(id: string, offset: int)

  /** The ids of `navLinks`, in the order of the navigation bar. */
  const NavIds: seq<string> := ["home", "about", "skills", "projects", "experience", "contact"]

  /** Added to the scroll position so that a section turns active shortly before it reaches the top. */
  const Lookahead: int := 120

  /** The id returned when no section qualifies. */
  const DefaultId: string := "home"

  /** The rendered page: the element ids `document.getElementById` finds, with their `offsetTop`. */
  type Dom = map<string, int>

  /** The sections of `ids` that the page renders, in the order of `ids`. */
  function Rendered(ids: seq<string>, dom: Dom): (r: seq<Section>)
    ensures |r| <= |ids|
  {
    if ids == [] then []
    else (if ids[0] in dom then [Section(ids[0], dom[ids[0]])] else []) + Rendered(ids[1..], dom)
  }

  /** Exactly the ids of `ids` that the page renders appear, each with its `offsetTop`. */
  lemma {:induction false} RenderedSpec(ids: seq<string>, dom: Dom)
    ensures |Rendered(ids, dom)| <= |ids|
    ensures forall k :: 0 <= k < |Rendered(ids, dom)| ==>
      var s := Rendered(ids, dom)[k]; s.id in ids && s.id in dom && s.offset == dom[s.id]
    ensures forall k :: 0 <= k < |ids| && ids[k] in dom ==> Section(ids[k], dom[ids[k]]) in Rendered(ids, dom)
  {
    if ids != [] {
      RenderedSpec(ids[1..], dom);
      var head: seq<Section> := if ids[0] in dom then [Section(ids[0], dom[ids[0]])] else [];
      assert Rendered(ids, dom) == head + Rendered(ids[1..], dom);
      forall k | 1 <= k < |ids| && ids[k] in dom ensures Section(ids[k], dom[ids[k]]) in Rendered(ids, dom) {
        assert ids[1..][k - 1] == ids[k];
      }
    }
  }

  predicate Distinct(ids: seq<string>) {
    forall p, q :: 0 <= p < q < |ids| ==> ids[p] != ids[q]
  }

  /**
   * The rendered sections keep the order of `ids`: of two rendered sections,
   * the earlier one comes from an earlier position of `ids`.
   */
  lemma {:induction false} RenderedKeepsOrder(ids: seq<string>, dom: Dom, a: int, b: int)
    requires 0 <= a < b < |Rendered(ids, dom)|
    ensures exists p, q :: 0 <= p < q < |ids| && ids[p] == Rendered(ids, dom)[a].id && ids[q] == Rendered(ids, dom)[b].id
  {
    var rest := ids[1..];
    var tail := Rendered(rest, dom);
    var head: seq<Section> := if ids[0] in dom then [Section(ids[0], dom[ids[0]])] else [];
    assert Rendered(ids, dom) == head + tail;
    var shift := |head|;
    if a < shift {
      RenderedSpec(rest, dom);
      var q :| 0 <= q < |rest| && rest[q] == tail[b - shift].id;
      assert ids[q + 1] == rest[q];
      assert ids[0] == Rendered(ids, dom)[a].id;
    } else {
      RenderedKeepsOrder(rest, dom, a - shift, b - shift);
      var p, q :| 0 <= p < q < |rest| && rest[p] == tail[a - shift].id && rest[q] == tail[b - shift].id;
      assert ids[p + 1] == rest[p] && ids[q + 1] == rest[q];
    }
  }

  lemma NavIdsDistinct()
    ensures Distinct(NavIds)
  {
  }

  predicate SortedByOffset(s: seq<Section>) {
    forall i, j :: 0 <= i < j < |s| ==> s[i].offset <= s[j].offset
  }

  /**
   * Inserts `x` into `t` behind every entry whose offset is not larger than
   * that of `x`, so that entries with equal offsets keep their order.
   */
  function Insert(x: Section, t: seq<Section>): (r: seq<Section>)
    ensures multiset(r) == multiset(t) + multiset{x}
  {
    if t == [] || t[|t| - 1].offset <= x.offset then t + [x]
    else
      var init := t[..|t| - 1];
      assert t == init + [t[|t| - 1]];
      Insert(x, init) + [t[|t| - 1]]
  }

  /** Inserting into a sorted list keeps it sorted. */
  lemma {:induction false} InsertSorted(x: Section, t: seq<Section>)
    requires SortedByOffset(t)
    ensures SortedByOffset(Insert(x, t))
  {
    if t != [] && t[|t| - 1].offset > x.offset {
      var init := t[..|t| - 1];
      var y := t[|t| - 1];
      InsertSorted(x, init);
      var front := Insert(x, init);
      assert Insert(x, t) == front + [y];
      forall k | 0 <= k < |front| ensures front[k].offset <= y.offset {
        assert front[k] in multiset(init) + multiset{x};
      }
      SortedSnoc(front, y);
    }
  }

  lemma SortedSnoc(front: seq<Section>, y: Section)
    requires SortedByOffset(front)
    requires forall k :: 0 <= k < |front| ==> front[k].offset <= y.offset
    ensures SortedByOffset(front + [y])
  {
  }

  /** The stable sort by offset that `Array.prototype.sort` performs with the comparator `a.offset - b.offset`. */
  function SortByOffset(s: seq<Section>): (r: seq<Section>)
    ensures SortedByOffset(r)
    ensures multiset(r) == multiset(s)
  {
    if s == [] then []
    else
      var init := s[..|s| - 1];
      assert s == init + [s[|s| - 1]];
      InsertSorted(s[|s| - 1], SortByOffset(init));
      Insert(s[|s| - 1], SortByOffset(init))
  }

  /** The entries whose offset is at most `position`, in their order. */
  function Qualifying(t: seq<Section>, position: int): (r: seq<Section>)
    ensures forall k :: 0 <= k < |r| ==> r[k] in t && r[k].offset <= position
  {
    if t == [] then []
    else
      Qualifying(t[..|t| - 1], position) + (if t[|t| - 1].offset <= position then [t[|t| - 1]] else [])
  }

  /** Every qualifying entry of `t` is kept. */
  lemma {:induction false} QualifyingComplete(t: seq<Section>, position: int)
    ensures forall k :: 0 <= k < |t| && t[k].offset <= position ==> t[k] in Qualifying(t, position)
  {
    if t != [] {
      var init := t[..|t| - 1];
      QualifyingComplete(init, position);
      forall k | 0 <= k < |t| - 1 && t[k].offset <= position ensures t[k] in Qualifying(t, position) {
        assert init[k] == t[k];
      }
    }
  }

  /** Filtering a concatenation filters each part and keeps their order. */
  lemma {:induction false} QualifyingAppend(t1: seq<Section>, t2: seq<Section>, position: int)
    ensures Qualifying(t1 + t2, position) == Qualifying(t1, position) + Qualifying(t2, position)
  {
    if t2 == [] {
      assert t1 + t2 == t1;
    } else {
      var init := t2[..|t2| - 1];
      QualifyingAppend(t1, init, position);
      assert (t1 + t2)[..|t1 + t2| - 1] == t1 + init;
    }
  }

  /** `Array.prototype.pop`: the last entry, if any. */
  function Pop(t: seq<Section>): (r: Option<Section>)
    ensures r.None? <==> t == []
    ensures r.Some? ==> r.value == t[|t| - 1]
  {
    if t == [] then None else Some(t[|t| - 1])
  }

  /** The section the pipeline of `getActiveSection` ends with: sort, filter, pop. */
  function ActiveEntry(sections: seq<Section>, scrollY: int): (r: Option<Section>)
    ensures r.Some? ==> r.value in sections && r.value.offset <= scrollY + Lookahead
  {
    var sorted := SortByOffset(sections);
    var q := Qualifying(sorted, scrollY + Lookahead);
    var r := Pop(q);
    assert r.Some? ==> r.value in multiset(sorted);
    r
  }

  /** `getActiveSection`: the id of the active rendered section, or `"home"`. */
  function GetActiveSection(dom: Dom, scrollY: int): (id: string)
    ensures id in NavIds
    ensures id == DefaultId || id in dom
  {
    RenderedSpec(NavIds, dom);
    match ActiveEntry(Rendered(NavIds, dom), scrollY)
    case None => DefaultId
    case Some(s) => s.id
  }

  // ---------------------------------------------------------------------------
  // An independent description of the active entry, read off the unsorted list.

  /**
   * `k` is the active index of `s` at `position`: its entry qualifies, no
   * qualifying entry has a larger offset, and no later qualifying entry has
   * the same offset.
   */
  predicate IsActiveIndex(s: seq<Section>, position: int, k: int) {
    && 0 <= k < |s|
    && s[k].offset <= position
    && (forall i :: 0 <= i < |s| && s[i].offset <= position ==> s[i].offset <= s[k].offset)
    && (forall i :: k < i < |s| && s[i].offset <= position ==> s[i].offset < s[k].offset)
  }

  /** A left-to-right scan that keeps the latest qualifying entry with the highest offset seen so far. */
  function LatestHighest(s: seq<Section>, position: int): (r: Option<nat>)
    ensures r.None? <==> forall i :: 0 <= i < |s| ==> s[i].offset > position
    ensures r.Some? ==> IsActiveIndex(s, position, r.value)
  {
    if s == [] then None
    else
      var k := |s| - 1;
      var prev := LatestHighest(s[..k], position);
      if s[k].offset <= position && (prev.None? || s[prev.value].offset <= s[k].offset) then Some(k)
      else prev
  }

  /** At most one index is active. */
  lemma ActiveIndexUnique(s: seq<Section>, position: int, k1: int, k2: int)
    requires IsActiveIndex(s, position, k1) && IsActiveIndex(s, position, k2)
    ensures k1 == k2
  {
  }

  function EntryAt(s: seq<Section>, k: Option<nat>): Option<Section>
    requires k.Some? ==> k.value < |s|
  {
    match k
    case None => None
    case Some(i) => Some(s[i])
  }

  /** One scan step: the entry kept after `x` has been seen. */
  function Step(best: Option<Section>, x: Section, position: int): Option<Section> {
    if x.offset <= position && (best.None? || best.value.offset <= x.offset) then Some(x) else best
  }

  /** Appending `y` changes the popped qualifying entry to `y` exactly when `y` qualifies. */
  lemma PopQualifyingSnoc(t: seq<Section>, y: Section, position: int)
    ensures Pop(Qualifying(t + [y], position)) ==
      if y.offset <= position then Some(y) else Pop(Qualifying(t, position))
  {
    assert (t + [y])[..|t|] == t;
  }

  /** The popped qualifying entry of a sorted list has an offset no larger than the list's last entry. */
  lemma PopQualifyingBelowLast(t: seq<Section>, position: int)
    requires SortedByOffset(t) && t != []
    ensures Pop(Qualifying(t, position)).Some? ==> Pop(Qualifying(t, position)).value.offset <= t[|t| - 1].offset
  {
    var best := Pop(Qualifying(t, position));
    if best.Some? {
      assert best.value in t;
    }
  }

  /** A prefix of a sorted list is sorted. */
  lemma SortedPrefix(t: seq<Section>, n: nat)
    requires SortedByOffset(t) && n <= |t|
    ensures SortedByOffset(t[..n])
  {
  }

  /** Inserting into a sorted list changes the popped qualifying entry exactly as one scan step does. */
  lemma {:induction false} InsertStep(x: Section, t: seq<Section>, position: int)
    requires SortedByOffset(t)
    ensures Pop(Qualifying(Insert(x, t), position)) == Step(Pop(Qualifying(t, position)), x, position)
    decreases |t|, 1
  {
    if t == [] {
      PopQualifyingSnoc(t, x, position);
    } else if t[|t| - 1].offset <= x.offset {
      assert Insert(x, t) == t + [x];
      PopQualifyingSnoc(t, x, position);
      PopQualifyingBelowLast(t, position);
    } else {
      InsertBehind(x, t, position);
    }
  }

  /** The case of `InsertStep` where `x` goes before the last entry. */
  lemma {:induction false} InsertBehind(x: Section, t: seq<Section>, position: int)
    requires SortedByOffset(t) && t != [] && t[|t| - 1].offset > x.offset
    ensures Pop(Qualifying(Insert(x, t), position)) == Step(Pop(Qualifying(t, position)), x, position)
    decreases |t|, 0
  {
    var y := t[|t| - 1];
    var init := t[..|t| - 1];
    assert t == init + [y];
    assert Insert(x, t) == Insert(x, init) + [y];
    PopQualifyingSnoc(Insert(x, init), y, position);
    PopQualifyingSnoc(init, y, position);
    SortedPrefix(t, |t| - 1);
    InsertStep(x, init, position);
  }

  /** The sort-filter-pop pipeline of `getActiveSection` selects the entry the scan selects. */
  lemma {:induction false} ActiveEntryIsLatestHighest(s: seq<Section>, scrollY: int)
    ensures ActiveEntry(s, scrollY) == EntryAt(s, LatestHighest(s, scrollY + Lookahead))
  {
    if s != [] {
      var k := |s| - 1;
      var init := s[..k];
      ActiveEntryIsLatestHighest(init, scrollY);
      InsertStep(s[k], SortByOffset(init), scrollY + Lookahead);
    }
  }

  // ---------------------------------------------------------------------------
  // Properties of the resolver.

  /** With no qualifying entry the pipeline yields nothing; otherwise it yields the entry at the active index. */
  lemma ActiveEntrySpec(s: seq<Section>, scrollY: int)
    ensures ActiveEntry(s, scrollY).None? <==> forall i :: 0 <= i < |s| ==> s[i].offset > scrollY + Lookahead
    ensures ActiveEntry(s, scrollY).Some? ==>
      exists k :: IsActiveIndex(s, scrollY + Lookahead, k) && ActiveEntry(s, scrollY) == Some(s[k])
  {
    ActiveEntryIsLatestHighest(s, scrollY);
  }

  /** `"home"` whenever no rendered section has reached `scrollY + 120`, in particular on an empty page. */
  lemma DefaultsToHome(dom: Dom, scrollY: int)
    requires forall k :: 0 <= k < |NavIds| && NavIds[k] in dom ==> dom[NavIds[k]] > scrollY + Lookahead
    ensures GetActiveSection(dom, scrollY) == DefaultId
  {
    var r := Rendered(NavIds, dom);
    RenderedSpec(NavIds, dom);
    forall i | 0 <= i < |r| ensures r[i].offset > scrollY + Lookahead {
      var k :| 0 <= k < |NavIds| && NavIds[k] == r[i].id;
    }
    ActiveEntrySpec(r, scrollY);
  }

  /** Otherwise the id is that of the rendered section at the active index. */
  lemma ResolvesToActiveIndex(dom: Dom, scrollY: int)
    requires exists k :: 0 <= k < |Rendered(NavIds, dom)| && Rendered(NavIds, dom)[k].offset <= scrollY + Lookahead
    ensures exists k ::
      IsActiveIndex(Rendered(NavIds, dom), scrollY + Lookahead, k) &&
      GetActiveSection(dom, scrollY) == Rendered(NavIds, dom)[k].id
  {
    ActiveEntrySpec(Rendered(NavIds, dom), scrollY);
  }

  /** Scrolling further down never makes a section with a smaller offset active. */
  lemma MonotoneInScroll(s: seq<Section>, y1: int, y2: int)
    requires y1 <= y2
    requires exists i :: 0 <= i < |s| && s[i].offset <= y1 + Lookahead
    ensures ActiveEntry(s, y1).Some? && ActiveEntry(s, y2).Some?
    ensures ActiveEntry(s, y1).value.offset <= ActiveEntry(s, y2).value.offset
  {
    ActiveEntryIsLatestHighest(s, y1);
    ActiveEntryIsLatestHighest(s, y2);
  }

  /** For sections sorted by offset, the section whose band holds `scrollY + 120` is active. */
  lemma BetweenOffsets(s: seq<Section>, scrollY: int, i: int)
    requires SortedByOffset(s)
    requires 0 <= i < |s| && s[i].offset <= scrollY + Lookahead
    requires i + 1 < |s| ==> scrollY + Lookahead < s[i + 1].offset
    ensures ActiveEntry(s, scrollY) == Some(s[i])
  {
    ActiveEntryIsLatestHighest(s, scrollY);
    var k := LatestHighest(s, scrollY + Lookahead).value;
    ActiveIndexInSorted(s, scrollY + Lookahead, i, k);
  }

  /** In a sorted list, the active index is the last entry not past the position. */
  lemma ActiveIndexInSorted(s: seq<Section>, position: int, i: int, k: int)
    requires SortedByOffset(s)
    requires 0 <= i < |s| && s[i].offset <= position
    requires i + 1 < |s| ==> position < s[i + 1].offset
    requires IsActiveIndex(s, position, k)
    ensures k == i
  {
  }

  /**
   * Of two rendered qualifying sections with the same offset, the earlier
   * one in navigation order is never the active one.
   */
  lemma TiesGoToLaterNavLink(dom: Dom, scrollY: int, p: int, q: int)
    requires 0 <= p < q < |NavIds|
    requires NavIds[p] in dom && NavIds[q] in dom
    requires dom[NavIds[p]] == dom[NavIds[q]] <= scrollY + Lookahead
    ensures GetActiveSection(dom, scrollY) != NavIds[p]
  {
    var r := Rendered(NavIds, dom);
    var position := scrollY + Lookahead;
    RenderedSpec(NavIds, dom);
    NavIdsDistinct();
    var b :| 0 <= b < |r| && r[b] == Section(NavIds[q], dom[NavIds[q]]);
    ResolvesToActiveIndex(dom, scrollY);
    var k :| IsActiveIndex(r, position, k) && GetActiveSection(dom, scrollY) == r[k].id;
    if r[k].id == NavIds[p] {
      if b < k {
        RenderedKeepsOrder(NavIds, dom, b, k);
        assert false;
      } else if b == k {
        assert false;
      } else {
        assert false;
      }
    }
  }
}
