/** A row of selectable tags: in single mode a click selects one tag, in multiple mode
    it toggles the tag in the selection list. */
module TagGroup {

  import opened Wrappers
  import opened Seqs

  datatype Mode = Single | Multiple

  /** The component's `mode` property, "single" when not given. */
  function ModeOf(given: Option<Mode>): (m: Mode)
    ensures given.None? ==> m == Single
    ensures given.Some? ==> m == given.value
  {
    given.GetOr(Single)
  }

  /** The value handed to `setSelectedTags`: one id in single mode, a list in multiple mode. */
  datatype Selection = One(id: string) | Many(ids: seq<string>)

  /** The multiple-mode toggle: a selected id is removed (every occurrence of it, the
      others keeping their order); an unselected one is appended. */
  function Toggle(selected: seq<string>, id: string): (r: seq<string>)
    ensures id in selected ==> r == Filter(selected, (t: string) => t != id) && id !in r
    ensures id !in selected ==> r == selected + [id]
    ensures forall t :: t != id ==> (t in r <==> t in selected)
  {
    if id in selected then Filter(selected, (t: string) => t != id) else selected + [id]
  }

  /** handleTagClick. */
  function Click(mode: Mode, selected: seq<string>, id: string): (r: Selection)
    ensures mode == Single ==> r == One(id)
    ensures mode == Multiple ==> r == Many(Toggle(selected, id))
  {
    if mode == Single then One(id) else Many(Toggle(selected, id))
  }

  /** A tag is shown active iff its id is in the selection. */
  predicate Active(selected: seq<string>, id: string) {
    id in selected
  }

  /** In multiple mode a click flips exactly the clicked tag's activity. */
  lemma ClickFlipsOnlyTheClicked(selected: seq<string>, id: string, other: string)
    ensures Active(Click(Multiple, selected, id).ids, id) <==> !Active(selected, id)
    ensures other != id ==> (Active(Click(Multiple, selected, id).ids, other) <==> Active(selected, other))
  {
  }

  /** Removing what was just appended. */
  lemma {:induction false} FilterAppended(s: seq<string>, id: string)
    requires id !in s
    ensures Filter(s + [id], (t: string) => t != id) == s
  {
    if s == [] {
      assert [id][1..] == [];
    } else {
      assert (s + [id])[1..] == s[1..] + [id];
      assert s == [s[0]] + s[1..];
      FilterAppended(s[1..], id);
    }
  }

  /** In multiple mode two clicks on a tag that was not selected restore the selection. */
  lemma TwoClicksRestore(selected: seq<string>, id: string)
    requires id !in selected
    ensures Click(Multiple, Click(Multiple, selected, id).ids, id) == Many(selected)
  {
    FilterAppended(selected, id);
  }

  /** In multiple mode two clicks on a selected tag leave it selected once, at the end, and keep the
      other tags in order: the selection is restored only when the tag came last and once. */
  lemma TwoClicksOnSelected(selected: seq<string>, id: string)
    requires id in selected
    ensures Click(Multiple, Click(Multiple, selected, id).ids, id) == Many(Filter(selected, (t: string) => t != id) + [id])
  {
  }
}
