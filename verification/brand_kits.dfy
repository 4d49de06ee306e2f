/** The brand-kit picker: a fixed list of kits, each with a selection checkbox toggled by id. */
module BrandKits {

  /** One kit: its id, display name, colour token and whether it is selected. */
  datatype Kit = Kit(id: string, name: string, color: string, selected: bool)

  /** The kits on mount; only "The Agency" starts selected. */
  const InitialKits: seq<Kit> := [
    Kit("ecorp", "ECorp", "from-green-400 to-green-500", false),
    Kit("icorp", "ICorp", "from-orange-400 to-orange-500", false),
    Kit("agency", "The Agency", "from-red-400 to-red-500", true)
  ]

  /** `toggleBrandKit`: every kit whose id is `id` has its selection flipped; every other kit,
      and every other field, stays as it was, in the same order. */
  function ToggleKit(kits: seq<Kit>, id: string): (r: seq<Kit>)
    ensures |r| == |kits|
    ensures forall k :: 0 <= k < |r| ==>
      r[k].id == kits[k].id && r[k].name == kits[k].name && r[k].color == kits[k].color
    ensures forall k :: 0 <= k < |r| ==> (r[k].selected != kits[k].selected <==> kits[k].id == id)
  {
    seq(|kits|, k requires 0 <= k < |kits| =>
      if kits[k].id == id then kits[k].(selected := !kits[k].selected) else kits[k])
  }

  /** Toggling the same id twice restores the list. */
  lemma ToggleTwiceIsIdentity(kits: seq<Kit>, id: string)
    ensures ToggleKit(ToggleKit(kits, id), id) == kits
  {
  }

  /** Toggling an id no kit carries changes nothing. */
  lemma ToggleUnknownIsIdentity(kits: seq<Kit>, id: string)
    requires forall k :: 0 <= k < |kits| ==> kits[k].id != id
    ensures ToggleKit(kits, id) == kits
  {
  }

  /** Toggles of two ids may be applied in either order. */
  lemma TogglesCommute(kits: seq<Kit>, a: string, b: string)
    ensures ToggleKit(ToggleKit(kits, a), b) == ToggleKit(ToggleKit(kits, b), a)
  {
  }

  /** The ids of the selected kits. */
  function SelectedIds(kits: seq<Kit>): (ids: set<string>)
    ensures forall s :: s in ids <==> exists k :: 0 <= k < |kits| && kits[k].id == s && kits[k].selected
  {
    set k | 0 <= k < |kits| && kits[k].selected :: kits[k].id
  }

  /** On mount exactly one kit is selected, "agency", and the ids are distinct. */
  lemma InitialSelection()
    ensures SelectedIds(InitialKits) == {"agency"}
    ensures forall i, j :: 0 <= i < j < |InitialKits| ==> InitialKits[i].id != InitialKits[j].id
  {
    assert InitialKits[2].selected;
  }

  /** With distinct ids, toggling a present id adds it to the selection or removes it from it. */
  lemma ToggleFlipsSelection(kits: seq<Kit>, id: string)
    requires forall i, j :: 0 <= i < j < |kits| ==> kits[i].id != kits[j].id
    requires exists k :: 0 <= k < |kits| && kits[k].id == id
    ensures id in SelectedIds(kits) ==> SelectedIds(ToggleKit(kits, id)) == SelectedIds(kits) - {id}
    ensures id !in SelectedIds(kits) ==> SelectedIds(ToggleKit(kits, id)) == SelectedIds(kits) + {id}
  {
  }
}
