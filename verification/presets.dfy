/**
 * Timer presets and the persisted, ordered preset list: loading with a
 * fallback to the seven default presets, append, delete by index set, update
 * by id, move, and reset to defaults. Persistence is an abstract slot holding
 * the last saved list (`None` when nothing decodable is stored).
 */
module Presets {
  import opened Optional
  import Clock

  /** Stands for the preset's UUID. */
  type PresetId = nat

  /** `id` is fixed at creation; equality compares all three fields. */
  datatype Preset = Preset(id: PresetId, name: string, duration: nat)

  /** `formattedDuration`. */
  function PresetLabel(p: Preset): string {
    Clock.Format(p.duration)
  }

  /**
   * `defaultPresets`, a static list built once; `uuid(k)` is the identifier
   * generated for its `k`-th entry.
   */
  function DefaultPresets(uuid: nat -> PresetId): (r: seq<Preset>)
    ensures |r| == 7
    ensures forall k :: 0 <= k < 7 ==> r[k].id == uuid(k)
    ensures forall k :: 0 <= k < 7 ==> 0 < r[k].duration <= 3600 && r[k].duration % 300 == 0
    ensures forall j, k :: 0 <= j < k < 7 ==> r[j].duration < r[k].duration
  {
    [ Preset(uuid(0), "5 min", 5 * 60),
      Preset(uuid(1), "10 min", 10 * 60),
      Preset(uuid(2), "15 min", 15 * 60),
      Preset(uuid(3), "25 min (Pomodoro)", 25 * 60),
      Preset(uuid(4), "30 min", 30 * 60),
      Preset(uuid(5), "45 min", 45 * 60),
      Preset(uuid(6), "1 hour", 60 * 60) ]
  }

  /** The seven defaults, in order, with their names and durations. */
  lemma DefaultPresetsContents(uuid: nat -> PresetId)
    ensures var d := DefaultPresets(uuid);
      && |d| == 7
      && d[0].name == "5 min" && d[0].duration == 300
      && d[1].name == "10 min" && d[1].duration == 600
      && d[2].name == "15 min" && d[2].duration == 900
      && d[3].name == "25 min (Pomodoro)" && d[3].duration == 1500
      && d[4].name == "30 min" && d[4].duration == 1800
      && d[5].name == "45 min" && d[5].duration == 2700
      && d[6].name == "1 hour" && d[6].duration == 3600
  {
  }

  /** Among the defaults only "1 hour" renders with an hours field. */
  lemma DefaultPresetLabelLengths(uuid: nat -> PresetId)
    ensures var d := DefaultPresets(uuid);
      && (forall i :: 0 <= i < 6 ==> |PresetLabel(d[i])| == 5)
      && |PresetLabel(d[6])| == 8
  {
    var d := DefaultPresets(uuid);
    forall i | 0 <= i < 6 ensures |PresetLabel(d[i])| == 5 {
      Clock.FormatShape(d[i].duration);
    }
    Clock.FormatExamplesLong();
  }

  /** The labels of the first, the Pomodoro and the last default. */
  lemma DefaultPresetLabels(uuid: nat -> PresetId)
    ensures var d := DefaultPresets(uuid);
      && PresetLabel(d[0]) == "05:00"
      && PresetLabel(d[3]) == "25:00"
      && PresetLabel(d[6]) == "01:00:00"
  {
    var d := DefaultPresets(uuid);
    assert d[0].duration == 300 && d[3].duration == 1500 && d[6].duration == 3600;
    Clock.FormatExamplesShort();
    Clock.FormatExamplesLong();
  }

  // ---------------------------------------------------------------------
  // Index-set views of a list

  /**
   * The elements `s[j]`, `lo <= j < hi`, whose index is in `xs` (when
   * `member`) or not in `xs` (when `!member`), in list order.
   */
  function Pick<T>(s: seq<T>, xs: set<nat>, member: bool, lo: nat, hi: nat): seq<T>
    requires lo <= hi <= |s|
    decreases hi - lo
  {
    if lo == hi then []
    else Pick(s, xs, member, lo, hi - 1) + (if ((hi - 1) in xs) == member then [s[hi - 1]] else [])
  }

  lemma {:induction false} PickSplit<T>(s: seq<T>, xs: set<nat>, member: bool, lo: nat, mid: nat, hi: nat)
    requires lo <= mid <= hi <= |s|
    ensures Pick(s, xs, member, lo, hi) == Pick(s, xs, member, lo, mid) + Pick(s, xs, member, mid, hi)
    decreases hi - mid
  {
    if mid < hi {
      PickSplit(s, xs, member, lo, mid, hi - 1);
    }
  }

  /** A pick depends only on the elements in its window. */
  lemma {:induction false} PickSameWindow<T>(s: seq<T>, t: seq<T>, xs: set<nat>, member: bool, lo: nat, hi: nat)
    requires lo <= hi <= |s| && hi <= |t|
    requires s[lo..hi] == t[lo..hi]
    ensures Pick(s, xs, member, lo, hi) == Pick(t, xs, member, lo, hi)
    decreases hi - lo
  {
    if lo < hi {
      assert s[hi - 1] == s[lo..hi][hi - 1 - lo] == t[hi - 1];
      assert s[lo..hi - 1] == s[lo..hi][..hi - 1 - lo];
      assert t[lo..hi - 1] == t[lo..hi][..hi - 1 - lo];
      PickSameWindow(s, t, xs, member, lo, hi - 1);
    }
  }

  /** The picked and the rejected elements of a prefix together are the prefix. */
  lemma {:induction false} PickPartition<T>(s: seq<T>, xs: set<nat>, hi: nat)
    requires hi <= |s|
    ensures multiset(Pick(s, xs, true, 0, hi)) + multiset(Pick(s, xs, false, 0, hi)) == multiset(s[..hi])
  {
    if hi > 0 {
      PickPartition(s, xs, hi - 1);
      PartitionStep(s, xs, hi);
    } else {
      assert s[..hi] == [];
    }
  }

  /** Every index of a window is either picked or rejected. */
  lemma {:induction false} PickLength<T>(s: seq<T>, xs: set<nat>, lo: nat, hi: nat)
    requires lo <= hi <= |s|
    ensures |Pick(s, xs, true, lo, hi)| + |Pick(s, xs, false, lo, hi)| == hi - lo
    decreases hi - lo
  {
    if lo < hi {
      PickLength(s, xs, lo, hi - 1);
    }
  }

  /** One more element goes to exactly one side of the partition. */
  lemma PartitionStep<T>(s: seq<T>, xs: set<nat>, hi: nat)
    requires 0 < hi <= |s|
    requires multiset(Pick(s, xs, true, 0, hi - 1)) + multiset(Pick(s, xs, false, 0, hi - 1)) == multiset(s[..hi - 1])
    ensures multiset(Pick(s, xs, true, 0, hi)) + multiset(Pick(s, xs, false, 0, hi)) == multiset(s[..hi])
  {
    var a, b := Pick(s, xs, true, 0, hi - 1), Pick(s, xs, false, 0, hi - 1);
    var w, x := s[..hi - 1], s[hi - 1];
    PrefixSnoc(s, hi);
    SnocMultiset(a, b, w, x);
    if hi - 1 in xs {
      assert Pick(s, xs, true, 0, hi) == a + [x];
      assert Pick(s, xs, false, 0, hi) == b;
    } else {
      assert Pick(s, xs, true, 0, hi) == a;
      assert Pick(s, xs, false, 0, hi) == b + [x];
    }
  }

  lemma PrefixSnoc<T>(s: seq<T>, hi: nat)
    requires 0 < hi <= |s|
    ensures s[..hi] == s[..hi - 1] + [s[hi - 1]]
  {
  }

  lemma SnocMultiset<T>(a: seq<T>, b: seq<T>, w: seq<T>, x: T)
    requires multiset(a) + multiset(b) == multiset(w)
    ensures multiset(a + [x]) + multiset(b) == multiset(w + [x])
    ensures multiset(a) + multiset(b + [x]) == multiset(w + [x])
  {
  }

  /** The number of elements picked by index is the number of in-range indices. */
  lemma {:induction false} PickCount<T>(s: seq<T>, xs: set<nat>, hi: nat)
    requires hi <= |s|
    ensures |Pick(s, xs, true, 0, hi)| == |set i | i in xs && i < hi|
  {
    if hi > 0 {
      PickCount(s, xs, hi - 1);
      var below := set i | i in xs && i < hi - 1;
      if hi - 1 in xs {
        assert (set i | i in xs && i < hi) == below + {hi - 1};
      } else {
        assert (set i | i in xs && i < hi) == below;
      }
    }
  }

  // ---------------------------------------------------------------------
  // Deleting by index set

  /** Indices an `IndexSet` may hold for a list of length `n`. */
  predicate InRange(xs: set<nat>, n: nat) {
    forall i :: i in xs ==> i < n
  }

  /** Visits indices `i - 1` down to `0`, removing each one in `xs`. */
  function RemoveDescending<T>(s: seq<T>, xs: set<nat>, i: nat): seq<T>
    requires i <= |s|
    decreases i
  {
    if i == 0 then s
    else RemoveDescending(if i - 1 in xs then s[..i - 1] + s[i..] else s, xs, i - 1)
  }

  lemma {:induction false} RemoveDescendingKeeps<T>(s: seq<T>, xs: set<nat>, i: nat)
    requires i <= |s|
    ensures RemoveDescending(s, xs, i) == Pick(s, xs, false, 0, i) + s[i..]
    decreases i
  {
    if i > 0 {
      var s' := if i - 1 in xs then s[..i - 1] + s[i..] else s;
      RemoveDescendingKeeps(s', xs, i - 1);
      assert s'[..i - 1] == s[..i - 1];
      PickSameWindow(s', s, xs, false, 0, i - 1);
      if i - 1 in xs {
        assert s'[i - 1..] == s[i..];
      } else {
        assert s[i - 1..] == [s[i - 1]] + s[i..];
      }
    }
  }

  /**
   * `deletePreset(at:)`: removing the offsets in descending order leaves
   * exactly the elements at the other indices, in their original order, and
   * shortens the list by the number of offsets.
   */
  function DeleteAt<T>(s: seq<T>, xs: set<nat>): (r: seq<T>)
    requires InRange(xs, |s|)
    ensures r == Pick(s, xs, false, 0, |s|)
    ensures |r| == |s| - |xs|
  {
    RemoveDescendingKeeps(s, xs, |s|);
    PickLength(s, xs, 0, |s|);
    PickCount(s, xs, |s|);
    assert (set i | i in xs && i < |s|) == xs;
    RemoveDescending(s, xs, |s|)
  }

  // ---------------------------------------------------------------------
  // Moving an index set

  /**
   * `move(fromOffsets:toOffset:)`: the elements at `xs`, in order, are placed
   * before the element that was at `dest`; the others keep their order.
   */
  function MoveTo<T>(s: seq<T>, xs: set<nat>, dest: nat): (r: seq<T>)
    requires dest <= |s|
    ensures multiset(r) == multiset(s)
    ensures var k, m := |Pick(s, xs, false, 0, dest)|, |Pick(s, xs, true, 0, |s|)|;
      && k + m <= |r|
      && r[k..k + m] == Pick(s, xs, true, 0, |s|)
      && r[..k] + r[k + m..] == Pick(s, xs, false, 0, |s|)
  {
    var a, b, c := Pick(s, xs, false, 0, dest), Pick(s, xs, true, 0, |s|), Pick(s, xs, false, dest, |s|);
    PickSplit(s, xs, false, 0, dest, |s|);
    MoveParts(s, xs, a, b, c);
    var r := a + b + c;
    assert r[..|a|] == a;
    assert r[|a|..|a| + |b|] == b;
    assert r[|a| + |b|..] == c;
    r
  }

  /** The three blocks of a move hold the list's elements once each. */
  lemma MoveParts<T>(s: seq<T>, xs: set<nat>, a: seq<T>, b: seq<T>, c: seq<T>)
    requires b == Pick(s, xs, true, 0, |s|) && a + c == Pick(s, xs, false, 0, |s|)
    ensures multiset(a + b + c) == multiset(s)
  {
    PickPartition(s, xs, |s|);
    assert s[..|s|] == s;
    assert multiset(a + c) == multiset(a) + multiset(c);
    assert multiset(a + b + c) == multiset(a) + multiset(b) + multiset(c);
  }

  // ---------------------------------------------------------------------
  // Finding by id

  /** `i` is the first position holding a preset with the given id. */
  predicate FirstWithId(s: seq<Preset>, id: PresetId, i: nat) {
    i < |s| && s[i].id == id && forall j :: 0 <= j < i ==> s[j].id != id
  }

  /** `firstIndex(where: { $0.id == id })`. */
  function FirstIndexOf(s: seq<Preset>, id: PresetId): (r: Option<nat>)
    ensures r.Some? ==> r.value < |s| && s[r.value].id == id
    ensures r.Some? ==> forall j :: 0 <= j < r.value ==> s[j].id != id
    ensures r.None? ==> forall j :: 0 <= j < |s| ==> s[j].id != id
    decreases |s|
  {
    if |s| == 0 then None
    else if s[0].id == id then Some(0)
    else match FirstIndexOf(s[1..], id)
      case None => None
      case Some(k) => Some(k + 1)
  }

  // ---------------------------------------------------------------------
  // The persisted list

  /** The in-memory list and what was last written to storage. */
  datatype Store = Store(presets: seq<Preset>, saved: Option<seq<Preset>>)

  /** `savePresets()`. */
  function Save(st: Store): (r: Store)
    ensures r.presets == st.presets && r.saved == Some(st.presets)
  {
    st.(saved := Some(st.presets))
  }

  /**
   * `loadPresets()`: the stored list when there is one, otherwise the
   * defaults, which are saved at once.
   */
  function Load(st: Store, uuid: nat -> PresetId): (r: Store)
    ensures st.saved.Some? ==> r.presets == st.saved.value && r.saved == st.saved
    ensures st.saved.None? ==> r.presets == DefaultPresets(uuid) && r.saved == Some(r.presets)
    ensures r.saved == Some(r.presets)
  {
    match st.saved
    case Some(list) => st.(presets := list)
    case None => Save(st.(presets := DefaultPresets(uuid)))
  }

  /** A second load returns what the first one did. */
  lemma LoadStable(st: Store, uuid: nat -> PresetId)
    ensures Load(Load(st, uuid), uuid) == Load(st, uuid)
  {
  }

  /** `addPreset(_:)`: appended at the end, then persisted. */
  function Add(st: Store, p: Preset): (r: Store)
    ensures |r.presets| == |st.presets| + 1
    ensures r.presets[..|st.presets|] == st.presets && r.presets[|st.presets|] == p
    ensures r.saved == Some(r.presets)
  {
    Save(st.(presets := st.presets + [p]))
  }

  /** `deletePreset(at:)`, then persisted. */
  function Delete(st: Store, xs: set<nat>): (r: Store)
    requires InRange(xs, |st.presets|)
    ensures r.presets == Pick(st.presets, xs, false, 0, |st.presets|)
    ensures |r.presets| == |st.presets| - |xs|
    ensures r.saved == Some(r.presets)
  {
    Save(st.(presets := DeleteAt(st.presets, xs)))
  }

  /**
   * `updatePreset(_:)`: replaces the first preset with the same id and saves;
   * with no such preset nothing changes and nothing is saved.
   */
  function Update(st: Store, p: Preset): (r: Store)
    ensures (forall j :: 0 <= j < |st.presets| ==> st.presets[j].id != p.id) ==> r == st
    ensures forall i: nat :: FirstWithId(st.presets, p.id, i) ==>
      r.presets == st.presets[i := p] && r.saved == Some(r.presets)
  {
    match FirstIndexOf(st.presets, p.id)
    case None => st
    case Some(i) => Save(st.(presets := st.presets[i := p]))
  }

  /** `resetToDefaultPresets()`. */
  function ResetToDefaults(st: Store, uuid: nat -> PresetId): (r: Store)
    ensures r.presets == DefaultPresets(uuid) && r.saved == Some(r.presets)
  {
    Save(st.(presets := DefaultPresets(uuid)))
  }

  /** The list move of the management sheet, then persisted. */
  function Move(st: Store, xs: set<nat>, dest: nat): (r: Store)
    requires InRange(xs, |st.presets|) && dest <= |st.presets|
    ensures multiset(r.presets) == multiset(st.presets)
    ensures r.saved == Some(r.presets)
  {
    Save(st.(presets := MoveTo(st.presets, xs, dest)))
  }

  /** Whatever was last saved is what the next launch loads. */
  lemma ReloadAfterEdit(st: Store, uuid: nat -> PresetId)
    requires st.saved == Some(st.presets)
    ensures Load(Store([], st.saved), uuid).presets == st.presets
  {
  }

  /** A deleted preset does not come back after a reload (ids assumed unique). */
  lemma DeleteThenReload(st: Store, xs: set<nat>, uuid: nat -> PresetId, i: nat)
    requires InRange(xs, |st.presets|) && i in xs
    requires forall a, b :: 0 <= a < b < |st.presets| ==> st.presets[a].id != st.presets[b].id
    ensures forall p :: p in Load(Store([], Delete(st, xs).saved), uuid).presets ==> p.id != st.presets[i].id
  {
    var s := st.presets;
    var r := Load(Store([], Delete(st, xs).saved), uuid).presets;
    assert r == Pick(s, xs, false, 0, |s|);
    PickAvoids(s, xs, 0, |s|, i);
  }

  /** An element at a picked-out index, whose id no other element shares, is not rejected. */
  lemma {:induction false} PickAvoids(s: seq<Preset>, xs: set<nat>, lo: nat, hi: nat, i: nat)
    requires lo <= hi <= |s| && i in xs && i < |s|
    requires forall a, b :: 0 <= a < b < |s| ==> s[a].id != s[b].id
    ensures forall p :: p in Pick(s, xs, false, lo, hi) ==> p.id != s[i].id
    decreases hi - lo
  {
    if lo < hi {
      PickAvoids(s, xs, lo, hi - 1, i);
      if hi - 1 !in xs {
        assert hi - 1 != i;
        assert s[hi - 1].id != s[i].id by {
          if hi - 1 < i {} else {}
        }
      }
    }
  }

  /** Adding a preset and reloading returns it, with its id, at the end. */
  lemma AddThenReload(st: Store, p: Preset, uuid: nat -> PresetId)
    ensures var r := Load(Store([], Add(st, p).saved), uuid).presets;
      |r| > 0 && r[|r| - 1] == p && r[|r| - 1].id == p.id
  {
  }
}
