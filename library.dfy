/** The episode library panel: the distinct tags and arc names offered as
    filters, the filter applied to the episode list, and the colour of a tag chip. */
module Library {
  import opened Records
  import opened Text
  import Seqs

  // ---------------------------------------------------------------------------
  // Distinct, sorted tags and arcs

  /** `tag` appears in the tag list of one of `episodes`. */
  predicate TagOccurs(episodes: seq<Episode>, tag: string) {
    exists i :: 0 <= i < |episodes| && episodes[i].tags.Some? && tag in episodes[i].tags.value
  }

  /** `arc` is the non-empty arc name of one of `episodes`. */
  predicate ArcOccurs(episodes: seq<Episode>, arc: string) {
    arc != "" && exists i :: 0 <= i < |episodes| && episodes[i].arc_name == Some(arc)
  }

  predicate NoDuplicates(s: seq<string>) {
    forall i, j :: 0 <= i < j < |s| ==> s[i] != s[j]
  }

  /** `set.add(x)` on a JavaScript `Set`, held as its insertion-ordered contents. */
  function AddToSet(s: seq<string>, x: string): (r: seq<string>)
    requires NoDuplicates(s)
    ensures NoDuplicates(r)
    ensures forall y :: y in r <==> y in s || y == x
  {
    if x in s then s else s + [x]
  }

  /** `x` placed into the strictly sorted `s`. */
  function InsertSorted(s: seq<string>, x: string): (r: seq<string>)
    requires StrictlySorted(s) && x !in s
    ensures StrictlySorted(r)
    ensures |r| == |s| + 1
    ensures forall y :: y in r <==> y in s || y == x
  {
    if s == [] then [x]
    else if LexLess(x, s[0]) then
      forall j | 0 <= j < |s| ensures LexLess(x, s[j]) {
        if j > 0 { LexLessTransitive(x, s[0], s[j]); }
      }
      [x] + s
    else
      LexLessTotal(x, s[0]);
      var rest := InsertSorted(s[1..], x);
      assert forall y :: y in rest ==> LexLess(s[0], y);
      [s[0]] + rest
  }

  /** `Array.prototype.sort()` on distinct strings: the same strings in
      increasing order. */
  method SortStrings(s: seq<string>) returns (r: seq<string>)
    requires NoDuplicates(s)
    ensures StrictlySorted(r)
    ensures |r| == |s|
    ensures forall y :: y in r <==> y in s
  {
    r := [];
    for i := 0 to |s|
      invariant StrictlySorted(r)
      invariant |r| == i
      invariant forall y :: y in r <==> y in s[..i]
    {
      assert s[..i + 1] == s[..i] + [s[i]];
      r := InsertSorted(r, s[i]);
    }
    assert s[..|s|] == s;
  }

  /** Two strictly sorted lists with the same elements are equal, so the sorted
      result does not depend on how the sort proceeds. */
  lemma {:induction false} SortedUnique(a: seq<string>, b: seq<string>)
    requires StrictlySorted(a) && StrictlySorted(b)
    requires forall y :: y in a <==> y in b
    ensures a == b
    decreases |a|
  {
    assert a != [] ==> a[0] in b;
    assert b != [] ==> b[0] in a;
    if a != [] && b != [] {
      if a[0] != b[0] {
        assert a[0] in b && b[0] in a;
        var j :| 0 <= j < |b| && b[j] == a[0];
        var k :| 0 <= k < |a| && a[k] == b[0];
        LexLessTransitive(a[0], a[k], b[j]);
        LexLessIrreflexive(a[0]);
      }
      forall y ensures y in a[1..] <==> y in b[1..] {
        if y in a[1..] {
          var k :| 0 <= k < |a[1..]| && a[1..][k] == y;
          assert LexLess(a[0], a[k + 1]);
          LexLessIrreflexive(y);
          assert y in b;
          var m :| 0 <= m < |b| && b[m] == y;
          assert m > 0;
          assert b[1..][m - 1] == y;
        }
        if y in b[1..] {
          var k :| 0 <= k < |b[1..]| && b[1..][k] == y;
          assert LexLess(b[0], b[k + 1]);
          LexLessIrreflexive(y);
          assert y in a;
          var m :| 0 <= m < |a| && a[m] == y;
          assert m > 0;
          assert a[1..][m - 1] == y;
        }
      }
      SortedUnique(a[1..], b[1..]);
    }
  }

  /** The tag and arc extraction effect: every tag of every episode and every
      non-empty arc name, each once, sorted. */
  method CollectTagsAndArcs(episodes: seq<Episode>) returns (availableTags: seq<string>, availableArcs: seq<string>)
    ensures StrictlySorted(availableTags)
    ensures forall t :: t in availableTags <==> TagOccurs(episodes, t)
    ensures StrictlySorted(availableArcs)
    ensures forall a :: a in availableArcs <==> ArcOccurs(episodes, a)
  {
    var tags: seq<string> := [];
    var arcs: seq<string> := [];
    for i := 0 to |episodes|
      invariant NoDuplicates(tags) && NoDuplicates(arcs)
      invariant forall t :: t in tags <==> TagOccurs(episodes[..i], t)
      invariant forall a :: a in arcs <==> ArcOccurs(episodes[..i], a)
    {
      var e := episodes[i];
      assert episodes[..i + 1] == episodes[..i] + [e];
      if e.tags.Some? && |e.tags.value| > 0 {
        var own := e.tags.value;
        for j := 0 to |own|
          invariant NoDuplicates(tags)
          invariant forall t :: t in tags <==> TagOccurs(episodes[..i], t) || t in own[..j]
        {
          assert own[..j + 1] == own[..j] + [own[j]];
          tags := AddToSet(tags, own[j]);
        }
        assert own[..|own|] == own;
      }
      if e.arc_name.Some? && e.arc_name.value != "" {
        arcs := AddToSet(arcs, e.arc_name.value);
      }
      forall t ensures TagOccurs(episodes[..i + 1], t) <==> TagOccurs(episodes[..i], t) || (e.tags.Some? && t in e.tags.value) {
        if TagOccurs(episodes[..i + 1], t) {
          var k :| 0 <= k < i + 1 && episodes[..i + 1][k].tags.Some? && t in episodes[..i + 1][k].tags.value;
          if k < i { assert episodes[..i][k] == episodes[..i + 1][k]; }
        }
        if TagOccurs(episodes[..i], t) {
          var k :| 0 <= k < i && episodes[..i][k].tags.Some? && t in episodes[..i][k].tags.value;
          assert episodes[..i + 1][k] == episodes[..i][k];
        }
        if e.tags.Some? && t in e.tags.value { assert episodes[..i + 1][i] == e; }
      }
      forall a ensures ArcOccurs(episodes[..i + 1], a) <==> ArcOccurs(episodes[..i], a) || (a != "" && e.arc_name == Some(a)) {
        if ArcOccurs(episodes[..i + 1], a) {
          var k :| 0 <= k < i + 1 && episodes[..i + 1][k].arc_name == Some(a);
          if k < i { assert episodes[..i][k] == episodes[..i + 1][k]; }
        }
        if ArcOccurs(episodes[..i], a) {
          var k :| 0 <= k < i && episodes[..i][k].arc_name == Some(a);
          assert episodes[..i + 1][k] == episodes[..i][k];
        }
        if a != "" && e.arc_name == Some(a) { assert episodes[..i + 1][i] == e; }
      }
    }
    assert episodes[..|episodes|] == episodes;
    availableTags := SortStrings(tags);
    availableArcs := SortStrings(arcs);
  }

  // ---------------------------------------------------------------------------
  // Filtering

  /** The filter controls of the panel; an empty string means "no filter". */
  datatype Filters = Filters(showArchived: bool, searchTerm: string, filterTag: string, filterArc: string)

  /** The search term occurs, ignoring case, in the title or the description. */
  predicate MatchesSearch(e: Episode, term: string): (b: bool)
    ensures b <==>
      || (exists k :: 0 <= k && OccursAt(Lower(e.title), Lower(term), k))
      || (e.description.Some? && exists k :: 0 <= k && OccursAt(Lower(e.description.value), Lower(term), k))
  {
    || Contains(Lower(e.title), Lower(term))
    || (e.description.Some? && Contains(Lower(e.description.value), Lower(term)))
  }

  /** The `filter` callback: each early `return false` is one conjunct. */
  predicate Keep(e: Episode, f: Filters): (b: bool)
    ensures f.showArchived && f.searchTerm == "" && f.filterTag == "" && f.filterArc == "" ==> b
    ensures b <==>
      && (e.is_archived ==> f.showArchived)
      && (f.searchTerm != "" ==> MatchesSearch(e, f.searchTerm))
      && (f.filterTag != "" ==> e.tags.Some? && f.filterTag in e.tags.value)
      && (f.filterArc != "" ==> e.arc_name == Some(f.filterArc))
  {
    && !(!f.showArchived && e.is_archived)
    && !(f.searchTerm != "" && !MatchesSearch(e, f.searchTerm))
    && !(f.filterTag != "" && (e.tags.None? || f.filterTag !in e.tags.value))
    && !(f.filterArc != "" && e.arc_name != Some(f.filterArc))
  }

  /** `filteredEpisodes()`. */
  function FilterEpisodes(episodes: seq<Episode>, f: Filters): (kept: seq<Episode>)
    ensures |kept| <= |episodes|
    ensures forall i :: 0 <= i < |kept| ==> Keep(kept[i], f)
  {
    if episodes == [] then []
    else (if Keep(episodes[0], f) then [episodes[0]] else []) + FilterEpisodes(episodes[1..], f)
  }

  /** The filtered list is an order-preserving sublist of the episodes, and an
      episode is in it exactly when it passes all four filters: archived ones
      only when archived ones are shown; with a search term, only those whose
      title or description contains it ignoring case; with a tag, only those
      tagged with exactly it; with an arc, only those in exactly that arc. */
  lemma {:induction false} FilterSpec(episodes: seq<Episode>, f: Filters, e: Episode)
    ensures Seqs.Sublist(FilterEpisodes(episodes, f), episodes)
    ensures e in FilterEpisodes(episodes, f) <==>
      && e in episodes
      && (e.is_archived ==> f.showArchived)
      && (f.searchTerm != "" ==> MatchesSearch(e, f.searchTerm))
      && (f.filterTag != "" ==> e.tags.Some? && f.filterTag in e.tags.value)
      && (f.filterArc != "" ==> e.arc_name == Some(f.filterArc))
  {
    if episodes != [] {
      FilterSpec(episodes[1..], f, e);
      var rest := FilterEpisodes(episodes[1..], f);
      if Keep(episodes[0], f) {
        var kept := [episodes[0]] + rest;
        assert kept[1..] == rest && kept[0] == episodes[0];
        assert Seqs.Sublist(kept, episodes);
      } else {
        assert FilterEpisodes(episodes, f) == rest;
        Seqs.SublistOfTail(rest, episodes);
      }
      assert episodes == [episodes[0]] + episodes[1..];
    }
  }

  /** An episode is listed as often as it occurs when it passes the filters, and
      never otherwise: filtering removes no duplicates. */
  lemma {:induction false} FilterCount(episodes: seq<Episode>, f: Filters, e: Episode)
    ensures multiset(FilterEpisodes(episodes, f))[e] == if Keep(e, f) then multiset(episodes)[e] else 0
  {
    if episodes != [] {
      FilterCount(episodes[1..], f, e);
      assert episodes == [episodes[0]] + episodes[1..];
    }
  }

  /** With no filter set and archived episodes shown, every episode is listed. */
  lemma {:induction false} NoFiltersKeepsAll(episodes: seq<Episode>)
    ensures FilterEpisodes(episodes, Filters(true, "", "", "")) == episodes
  {
    if episodes != [] {
      NoFiltersKeepsAll(episodes[1..]);
      assert [episodes[0]] + episodes[1..] == episodes;
    }
  }

  // ---------------------------------------------------------------------------
  // Tag colours

  const DefaultTagColour := "#6b7280"

  /** The colour of a tag chip: fixed colours for the four built-in tag kinds,
      whatever their case, and a neutral grey for anything else. */
  function TagColor(tag: string): (c: string)
    ensures Lower(tag) == "personaje" ==> c == "#ec4899"
    ensures Lower(tag) == "lugar" ==> c == "#3b82f6"
    ensures Lower(tag) == "evento" ==> c == "#f97316"
    ensures Lower(tag) == "trama" ==> c == "#8b5cf6"
    ensures Lower(tag) !in {"personaje", "lugar", "evento", "trama"} ==> c == DefaultTagColour
  {
    var key := Lower(tag);
    if key == "personaje" then "#ec4899"
    else if key == "lugar" then "#3b82f6"
    else if key == "evento" then "#f97316"
    else if key == "trama" then "#8b5cf6"
    else DefaultTagColour
  }

  /** Tags that differ only in case get the same colour. */
  lemma TagColorIgnoresCase(tag: string)
    ensures TagColor(tag) == TagColor(Lower(tag))
  {
    LowerIdempotent(tag);
  }

  /** Property names every plain JavaScript object inherits from `Object.prototype`. */
  const InheritedKeys: set<string> := {
    "constructor", "__proto__", "hasOwnProperty", "isPrototypeOf", "propertyIsEnumerable",
    "toString", "toLocaleString", "valueOf",
    "__defineGetter__", "__defineSetter__", "__lookupGetter__", "__lookupSetter__"
  }

  /** What `tagColors[key] || '#6b7280'` evaluates to: a colour string, or an
      inherited (truthy) member of the object literal. */
  datatype Lookup = Colour(hex: string) | InheritedMember(name: string)

  /** `getTagColor` as written: the object literal also answers for inherited keys. */
  function TagColorAsWritten(tag: string): (r: Lookup)
    ensures Lower(tag) in InheritedKeys <==> r.InheritedMember?
  {
    var key := Lower(tag);
    if key == "personaje" then Colour("#ec4899")
    else if key == "lugar" then Colour("#3b82f6")
    else if key == "evento" then Colour("#f97316")
    else if key == "trama" then Colour("#8b5cf6")
    else if key in InheritedKeys then InheritedMember(key)
    else Colour(DefaultTagColour)
  }

  /** A tag named "Constructor" gets the `Object` constructor instead of a colour. */
  lemma TagColorAsWrittenConstructor()
    ensures TagColorAsWritten("Constructor") == InheritedMember("constructor")
  {
    assert Lower("Constructor") == "constructor";
  }

  /** Outside the inherited keys the lookup as written and `TagColor` agree. */
  lemma TagColorAgrees(tag: string)
    requires Lower(tag) !in InheritedKeys
    ensures TagColorAsWritten(tag) == Colour(TagColor(tag))
  {
  }
}
