/** The bounded buffer of seed diagnostics (health_snapshot.rs): after any pushes it holds
    the most recently used seed indices, each with its latest diagnostics. */
module EchoBuffers {
  import opened Prelude
  import opened Sorting
  import opened Utf8

  const MAX_ECHOES: nat := 16
  const MAX_SUMMARY_BYTES: nat := 128

  /** Diagnostics with their optional frame summary; the rest is opaque. */
  datatype Diagnostics<D> = Diagnostics(summary: Option<Bytes>, rest: D)

  datatype Echo<D> = Echo(seedIndex: u64, diagnostics: Diagnostics<D>)

  /** Summaries are strings. */
  predicate ValidSummary<D>(d: Diagnostics<D>) { d.summary.Some? ==> Valid(d.summary.value) }

  /** d with its summary cut to the limit at a character boundary. */
  ghost predicate Trimmed<D>(d: Diagnostics<D>, t: Diagnostics<D>) {
    && t.rest == d.rest && t.summary.Some? == d.summary.Some?
    && (d.summary.Some? ==> LongestPrefix(d.summary.value, MAX_SUMMARY_BYTES, t.summary.value))
  }

  ghost predicate LongestPrefix(value: Bytes, limit: nat, kept: Bytes) {
    && Valid(kept) && kept <= value && |kept| <= limit
    && forall k :: |kept| < k <= |value| && k <= limit ==> !Valid(value[..k])
  }

  function Other<D>(index: u64): Echo<D> -> bool { (e: Echo<D>) => e.seedIndex != index }

  /** Each index once, at the place of its last use, with the entry of that use. */
  function LastUses<D>(history: seq<Echo<D>>): seq<Echo<D>> {
    if history == [] then []
    else if UsedIn(history[1..], history[0].seedIndex) then LastUses(history[1..])
    else [history[0]] + LastUses(history[1..])
  }

  predicate UsedIn<D>(history: seq<Echo<D>>, index: u64) { exists i :: 0 <= i < |history| && history[i].seedIndex == index }

  function LastOf<T>(n: nat, s: seq<T>): seq<T> { if |s| <= n then s else s[|s| - n..] }

  class EchoBuffer<D> {
    var echoes: seq<Echo<D>>
    ghost var history: seq<Echo<D>>

    ghost predicate Valid()
      reads this
    {
      echoes == LastOf(MAX_ECHOES, LastUses(history))
    }

    constructor ()
      ensures Valid() && history == []
    {
      echoes, history := [], [];
    }

    /** `push_seed_diagnostic_echo`. */
    method Push(seedIndex: u64, diagnostics: Diagnostics<D>)
      requires Valid() && ValidSummary(diagnostics)
      modifies this
      ensures Valid() && |history| == |old(history)| + 1 && old(history) <= history
      ensures var e := history[|old(history)|]; e.seedIndex == seedIndex && Trimmed(diagnostics, e.diagnostics)
      // At most sixteen, the one just used last, and summaries of up to 128 bytes whole.
      ensures 1 <= |echoes| <= 16 && echoes[|echoes| - 1] == history[|old(history)|]
      ensures var d := echoes[|echoes| - 1].diagnostics;
              diagnostics.summary.Some? ==>
                if |diagnostics.summary.value| <= 128 then d.summary == diagnostics.summary
                else d.summary.Some? && 124 < |d.summary.value| <= 128 && d.summary.value <= diagnostics.summary.value
    {
      var trimmed := diagnostics;
      if diagnostics.summary.Some? {
        var kept := Truncate(diagnostics.summary.value, MAX_SUMMARY_BYTES);
        LongestIsLong(diagnostics.summary.value, MAX_SUMMARY_BYTES, kept);
        trimmed := diagnostics.(summary := Some(kept));
      }
      var e := Echo(seedIndex, trimmed);
      PushKeepsRecent(history, echoes, e);
      echoes := Those(Other(seedIndex), echoes);
      if |echoes| == MAX_ECHOES {
        echoes := echoes[1..];
      }
      echoes := echoes + [e];
      history := history + [e];
    }
  }

  // ----- why one push keeps the buffer exact -----

  lemma {:induction false} LastUsesSnoc<D>(history: seq<Echo<D>>, e: Echo<D>)
    ensures LastUses(history + [e]) == Those(Other(e.seedIndex), LastUses(history)) + [e]
  {
    if history == [] {
      assert history + [e] == [e];
      assert LastUses([e][1..]) == [];
    } else {
      var first, rest := history[0], history[1..];
      assert (history + [e])[1..] == rest + [e];
      LastUsesSnoc(rest, e);
      UsedSnoc(rest, e, first.seedIndex);
      if !UsedIn(rest, first.seedIndex) {
        ThoseFirst(Other(e.seedIndex), first, LastUses(rest));
      }
    }
  }

  lemma {:induction false} UsedSnoc<D>(history: seq<Echo<D>>, e: Echo<D>, index: u64)
    ensures UsedIn(history + [e], index) <==> UsedIn(history, index) || e.seedIndex == index
  {
    var more := history + [e];
    if i :| 0 <= i < |history| && history[i].seedIndex == index {
      assert more[i].seedIndex == index;
    }
    assert more[|history|] == e;
  }

  predicate OneEach<D>(s: seq<Echo<D>>) { forall i, j :: 0 <= i < j < |s| ==> s[i].seedIndex != s[j].seedIndex }

  lemma {:induction false} LastUsesOneEach<D>(history: seq<Echo<D>>)
    ensures OneEach(LastUses(history))
    ensures forall i :: 0 <= i < |LastUses(history)| ==> UsedIn(history, LastUses(history)[i].seedIndex)
  {
    if history != [] {
      var rest := history[1..];
      LastUsesOneEach(rest);
      forall index | UsedIn(rest, index) ensures UsedIn(history, index) {
        var i :| 0 <= i < |rest| && rest[i].seedIndex == index;
        assert history[i + 1].seedIndex == index;
      }
      assert UsedIn(history, history[0].seedIndex);
    }
  }

  lemma {:induction false} NothingDropped<D>(index: u64, s: seq<Echo<D>>)
    requires forall i :: 0 <= i < |s| ==> s[i].seedIndex != index
    ensures Those(Other(index), s) == s
  {
    if s != [] {
      NothingDropped(index, s[..|s| - 1]);
    }
  }

  /** Dropping one entry of a list with one entry for each index. */
  lemma {:induction false} OneDropped<D>(index: u64, s: seq<Echo<D>>, k: nat)
    requires OneEach(s) && k < |s| && s[k].seedIndex == index
    ensures Those(Other(index), s) == s[..k] + s[k + 1..]
  {
    if k == |s| - 1 {
      NothingDropped(index, s[..k]);
      assert s[..k] + s[k + 1..] == s[..k];
    } else {
      OneDropped(index, s[..|s| - 1], k);
      assert s[..|s| - 1][..k] + s[..|s| - 1][k + 1..] + [s[|s| - 1]] == s[..k] + s[k + 1..];
    }
  }

  /** What `Push` makes of the buffer. */
  function Pushed<D>(echoes: seq<Echo<D>>, e: Echo<D>): seq<Echo<D>> {
    var others := Those(Other(e.seedIndex), echoes);
    (if |others| == MAX_ECHOES then others[1..] else others) + [e]
  }

  /** The window after an element enters: nothing removed, one removed inside the window,
      or one removed before it. */
  lemma {:induction false} WindowEnter<T>(n: nat, all: seq<T>, e: T)
    requires n > 0
    ensures var w := LastOf(n, all); (if |w| == n then w[1..] else w) + [e] == LastOf(n, all + [e])
  {
    var w := LastOf(n, all);
    if |all| >= n {
      assert (all + [e])[|all| + 1 - n..] == all[|all| - n..][1..] + [e];
    }
  }

  lemma {:induction false} WindowInside<T>(n: nat, all: seq<T>, e: T, k: nat)
    requires n > 0 && k < |all| && k >= |all| - n
    ensures var w := LastOf(n, all);
            var at := k - (|all| - |w|);
            w[..at] + w[at + 1..] + [e] == LastOf(n, all[..k] + all[k + 1..] + [e])
  {
    var w := LastOf(n, all);
    var gap := |all| - |w|;
    var less := all[..k] + all[k + 1..] + [e];
    assert less[gap..] == all[gap..k] + all[k + 1..] + [e];
  }

  lemma {:induction false} WindowBefore<T>(n: nat, all: seq<T>, e: T, k: nat)
    requires n > 0 && k < |all| - n
    ensures LastOf(n, all)[1..] + [e] == LastOf(n, all[..k] + all[k + 1..] + [e])
  {
    var gap := |all| - n;
    var less := all[..k] + all[k + 1..] + [e];
    assert less[gap..] == all[gap + 1..] + [e];
  }

  /** Pushing on the window is taking the window after pushing. */
  ghost predicate Commutes<D>(n: nat, all: seq<Echo<D>>, e: Echo<D>)
    requires n > 0
  {
    var others := Those(Other(e.seedIndex), LastOf(n, all));
    (if |others| == n then others[1..] else others) + [e] == LastOf(n, Those(Other(e.seedIndex), all) + [e])
  }

  lemma {:induction false} PushFresh<D>(n: nat, all: seq<Echo<D>>, e: Echo<D>)
    requires n > 0 && !UsedIn(all, e.seedIndex)
    ensures Commutes(n, all, e)
  {
    var window := LastOf(n, all);
    forall i | 0 <= i < |window| ensures window[i].seedIndex != e.seedIndex {
      assert window[i] == all[i + (|all| - |window|)];
    }
    NothingDropped(e.seedIndex, all);
    NothingDropped(e.seedIndex, window);
    WindowEnter(n, all, e);
  }

  lemma {:induction false} PushInside<D>(n: nat, all: seq<Echo<D>>, e: Echo<D>, k: nat)
    requires n > 0 && OneEach(all) && k < |all| && all[k].seedIndex == e.seedIndex && k >= |all| - n
    ensures Commutes(n, all, e)
  {
    var window := LastOf(n, all);
    var gap := |all| - |window|;
    forall i, j | 0 <= i < j < |window| ensures window[i].seedIndex != window[j].seedIndex {
      assert window[i] == all[i + gap] && window[j] == all[j + gap];
    }
    OneDropped(e.seedIndex, all, k);
    OneDropped(e.seedIndex, window, k - gap);
    WindowInside(n, all, e, k);
  }

  lemma {:induction false} PushBefore<D>(n: nat, all: seq<Echo<D>>, e: Echo<D>, k: nat)
    requires n > 0 && OneEach(all) && k < |all| - n && all[k].seedIndex == e.seedIndex
    ensures Commutes(n, all, e)
  {
    var window := LastOf(n, all);
    forall i | 0 <= i < |window| ensures window[i].seedIndex != e.seedIndex {
      assert window[i] == all[i + (|all| - n)];
    }
    OneDropped(e.seedIndex, all, k);
    NothingDropped(e.seedIndex, window);
    WindowBefore(n, all, e, k);
  }

  lemma {:induction false} PushWindow<D>(n: nat, all: seq<Echo<D>>, e: Echo<D>)
    requires n > 0 && OneEach(all)
    ensures Commutes(n, all, e)
  {
    if UsedIn(all, e.seedIndex) {
      var k: nat :| k < |all| && all[k].seedIndex == e.seedIndex;
      if k >= |all| - n {
        PushInside(n, all, e, k);
      } else {
        PushBefore(n, all, e, k);
      }
    } else {
      PushFresh(n, all, e);
    }
  }

  lemma {:induction false} PushKeepsRecent<D>(history: seq<Echo<D>>, echoes: seq<Echo<D>>, e: Echo<D>)
    requires echoes == LastOf(MAX_ECHOES, LastUses(history))
    ensures Pushed(echoes, e) == LastOf(MAX_ECHOES, LastUses(history + [e]))
  {
    LastUsesOneEach(history);
    LastUsesSnoc(history, e);
    PushWindow(MAX_ECHOES, LastUses(history), e);
  }

  /** At most three bytes of a character are lost by a cut. */
  lemma {:induction false} LongestIsLong(value: Bytes, limit: nat, kept: Bytes)
    requires Utf8.Valid(value) && LongestPrefix(value, limit, kept) && limit >= 4
    ensures if |value| <= limit then kept == value else |kept| > limit - 4
  {
    if |value| <= limit {
      assert value[..|value|] == value;
    } else {
      var k := BoundaryNear(value, limit);
      ValidPrefix(value, k);
    }
  }

  /** There is a character boundary among any four neighbouring places. */
  lemma {:induction false} BoundaryNear(value: Bytes, limit: nat) returns (k: nat)
    requires Utf8.Valid(value) && 4 <= limit < |value|
    ensures limit - 4 < k <= limit && IsCharBoundary(value, k)
    decreases |value|
  {
    var w := LeadWidth(value[0]);
    if limit - w < 4 {
      k := w;
      ValidStart(value[w..]);
      assert value[w..][0] == value[w];
    } else {
      k := BoundaryNear(value[w..], limit - w);
      assert k < |value[w..]| ==> value[w..][k] == value[k + w];
      k := k + w;
    }
  }

  // ----- the window by places in the history -----

  /** The k-th push is the last one of its index. */
  predicate LastUseAt<D>(history: seq<Echo<D>>, k: nat) {
    k < |history| && forall l :: k < l < |history| ==> history[l].seedIndex != history[k].seedIndex
  }

  function Later(ks: seq<nat>): (ls: seq<nat>)
    ensures |ls| == |ks| && forall i :: 0 <= i < |ks| ==> ls[i] == ks[i] + 1
  {
    seq(|ks|, i requires 0 <= i < |ks| => ks[i] + 1)
  }

  /** Where in the history the entries of `LastUses` stand. */
  function LastPlaces<D>(history: seq<Echo<D>>): (ks: seq<nat>)
    ensures |ks| == |LastUses(history)|
  {
    if history == [] then []
    else if UsedIn(history[1..], history[0].seedIndex) then Later(LastPlaces(history[1..]))
    else [0] + Later(LastPlaces(history[1..]))
  }

  lemma {:induction false} LastUseInRest<D>(history: seq<Echo<D>>, k: nat)
    requires history != []
    ensures LastUseAt(history, k + 1) <==> LastUseAt(history[1..], k)
  {
    var rest := history[1..];
    forall l: nat | l < |rest| ensures rest[l] == history[l + 1] {}
    if LastUseAt(history, k + 1) {
      forall l | k < l < |rest| ensures rest[l].seedIndex != rest[k].seedIndex {
        assert history[l + 1].seedIndex != history[k + 1].seedIndex;
      }
    }
    if LastUseAt(rest, k) {
      forall l | k + 1 < l < |history| ensures history[l].seedIndex != history[k + 1].seedIndex {
        assert rest[l - 1].seedIndex != rest[k].seedIndex;
      }
    }
  }

  lemma {:induction false} FirstIsLast<D>(history: seq<Echo<D>>)
    requires history != []
    ensures LastUseAt(history, 0) <==> !UsedIn(history[1..], history[0].seedIndex)
  {
    var rest := history[1..];
    if UsedIn(rest, history[0].seedIndex) {
      var i :| 0 <= i < |rest| && rest[i].seedIndex == history[0].seedIndex;
      assert history[i + 1] == rest[i];
    } else {
      forall l | 0 < l < |history| ensures history[l].seedIndex != history[0].seedIndex {
        assert history[l] == rest[l - 1];
      }
    }
  }

  /** These entries are the last pushes of each index, made at these places. */
  ghost predicate PlacesFit<D>(history: seq<Echo<D>>, uses: seq<Echo<D>>, ks: seq<nat>) {
    && |uses| == |ks|
    && (forall i :: 0 <= i < |ks| ==> LastUseAt(history, ks[i]) && uses[i] == history[ks[i]])
    && (forall i, j :: 0 <= i < j < |ks| ==> ks[i] < ks[j])
    && (forall k: nat :: LastUseAt(history, k) ==> k in ks)
  }

  lemma {:induction false} LaterFit<D>(history: seq<Echo<D>>, uses: seq<Echo<D>>, ls: seq<nat>)
    requires history != [] && PlacesFit(history[1..], uses, ls)
    ensures forall i :: 0 <= i < |ls| ==> LastUseAt(history, Later(ls)[i]) && uses[i] == history[Later(ls)[i]]
    ensures forall k: nat :: LastUseAt(history, k) && k > 0 ==> k in Later(ls)
  {
    forall i | 0 <= i < |ls| ensures LastUseAt(history, Later(ls)[i]) && uses[i] == history[Later(ls)[i]] {
      LastUseInRest(history, ls[i]);
    }
    forall k: nat | LastUseAt(history, k) && k > 0 ensures k in Later(ls) {
      LastUseInRest(history, k - 1);
      var i :| 0 <= i < |ls| && ls[i] == k - 1;
      assert Later(ls)[i] == k;
    }
  }

  lemma {:induction false} FirstDrops<D>(history: seq<Echo<D>>, uses: seq<Echo<D>>, ls: seq<nat>)
    requires history != [] && PlacesFit(history[1..], uses, ls) && !LastUseAt(history, 0)
    ensures PlacesFit(history, uses, Later(ls))
  {
    LaterFit(history, uses, ls);
  }

  lemma {:induction false} ZeroFirst(later: seq<nat>)
    requires (forall i, j :: 0 <= i < j < |later| ==> later[i] < later[j]) && forall i :: 0 <= i < |later| ==> 0 < later[i]
    ensures var ks := [0] + later; forall i, j :: 0 <= i < j < |ks| ==> ks[i] < ks[j]
    ensures forall k: nat :: k in [0] + later <==> k == 0 || k in later
  {
    var ks := [0] + later;
    forall i, j | 0 <= i < j < |ks| ensures ks[i] < ks[j] {
      assert ks[j] == later[j - 1] && (i > 0 ==> ks[i] == later[i - 1]);
    }
  }

  lemma {:induction false} FirstEntry<D>(history: seq<Echo<D>>, uses: seq<Echo<D>>, later: seq<nat>, i: nat)
    requires |uses| == |later| && LastUseAt(history, 0) && i < |uses| + 1
    requires forall j :: 0 <= j < |later| ==> LastUseAt(history, later[j]) && uses[j] == history[later[j]]
    ensures LastUseAt(history, ([0] + later)[i]) && ([history[0]] + uses)[i] == history[([0] + later)[i]]
  {
    if i > 0 {
      assert ([0] + later)[i] == later[i - 1] && ([history[0]] + uses)[i] == uses[i - 1];
    }
  }

  lemma {:induction false} FirstStays<D>(history: seq<Echo<D>>, uses: seq<Echo<D>>, ls: seq<nat>)
    requires history != [] && PlacesFit(history[1..], uses, ls) && LastUseAt(history, 0)
    ensures PlacesFit(history, [history[0]] + uses, [0] + Later(ls))
  {
    LaterFit(history, uses, ls);
    ZeroFirst(Later(ls));
    forall i: nat | i < |uses| + 1
      ensures LastUseAt(history, ([0] + Later(ls))[i]) && ([history[0]] + uses)[i] == history[([0] + Later(ls))[i]]
    {
      FirstEntry(history, uses, Later(ls), i);
    }
  }

  /** `LastUses` lists exactly the last pushes of each index, in the order they were made. */
  lemma {:induction false} LastUsesByPlaces<D>(history: seq<Echo<D>>)
    ensures PlacesFit(history, LastUses(history), LastPlaces(history))
  {
    if history != [] {
      var rest := history[1..];
      LastUsesByPlaces(rest);
      FirstIsLast(history);
      if LastUseAt(history, 0) {
        FirstStays(history, LastUses(rest), LastPlaces(rest));
      } else {
        FirstDrops(history, LastUses(rest), LastPlaces(rest));
      }
    }
  }
}
