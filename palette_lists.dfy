/** The new colour lists the editor computes: the default palette, the head insertion
    of a new colour, the id-keyed filter of a delete and the id-keyed map of a commit.
    Each is a pure function of the old list; the editor object assigns the result. */
module PaletteLists {
  import opened Types

  /** The add button is enabled only while the palette holds fewer colours than this. */
  const MaxColors: nat := 10

  const UntitledColor := "Untitled Color"
  const UntitledPalette := "Untitled Palette"
  /** The value every newly added colour starts with. */
  const NewColorValue := "#7AD7F3"
  /** The values of the seven colours of a palette that is not loaded from storage. */
  const DefaultValues: seq<string> := ["#4cc9f0", "#4895ef", "#4361ee", "#3f37c9", "#3a0ca3", "#480ca8", "#560bad"]

  function NewColor(id: string): Color {
    Color(id, UntitledColor, NewColorValue)
  }

  /** The palette the editor starts from when it is given none, with the seven ids the
      id generator hands out. */
  function DefaultPalette(ids: seq<string>): (p: Palette)
    requires |ids| == |DefaultValues|
    ensures p.id == None && p.userId == None && p.title == UntitledPalette
    ensures |p.colors| == 7 <= MaxColors
    ensures forall i :: 0 <= i < 7 ==> p.colors[i] == Color(ids[i], UntitledColor, DefaultValues[i])
    ensures (forall i, j :: 0 <= i < j < |ids| ==> ids[i] != ids[j]) ==> DistinctIds(p.colors)
  {
    Palette(None, None, UntitledPalette,
            seq(|ids|, i requires 0 <= i < |ids| => Color(ids[i], UntitledColor, DefaultValues[i])))
  }

  /** The add button: a new colour goes to the head of the list, but only while the
      list holds fewer than MaxColors colours; otherwise nothing happens. */
  function AddColor(colors: seq<Color>, id: string): (r: seq<Color>)
    ensures |colors| < MaxColors ==> |r| == |colors| + 1 && r[0] == NewColor(id) && r[1..] == colors
    ensures |colors| >= MaxColors ==> r == colors
    ensures |colors| <= MaxColors ==> |r| <= MaxColors
  {
    if |colors| < MaxColors then [NewColor(id)] + colors else colors
  }

  /** An add keeps every id present, and with a fresh id keeps the ids distinct. */
  lemma AddColorKeepsIds(colors: seq<Color>, id: string)
    ensures forall x :: HasId(colors, x) ==> HasId(AddColor(colors, id), x)
    ensures DistinctIds(colors) && !HasId(colors, id) ==> DistinctIds(AddColor(colors, id))
  {
    var r := AddColor(colors, id);
    if |colors| < MaxColors {
      forall x | HasId(colors, x) ensures HasId(r, x) {
        var i :| 0 <= i < |colors| && colors[i].id == x;
        assert r[i + 1] == colors[i];
      }
    }
  }

  /** Repeated clicks on the add button, one fresh id per click, the first id first. */
  function AddColors(colors: seq<Color>, ids: seq<string>): seq<Color>
    decreases |ids|
  {
    if ids == [] then colors else AddColors(AddColor(colors, ids[0]), ids[1..])
  }

  /** However many times the add button is clicked, a palette that starts within the
      bound grows to at most MaxColors colours, and stops there. */
  lemma {:induction false} AddColorsBounded(colors: seq<Color>, ids: seq<string>)
    requires |colors| <= MaxColors
    ensures |AddColors(colors, ids)| == if |colors| + |ids| <= MaxColors then |colors| + |ids| else MaxColors
    decreases |ids|
  {
    if ids != [] {
      AddColorsBounded(AddColor(colors, ids[0]), ids[1..]);
    }
  }

  // ----- delete: `colors.filter((color) => color.id !== editedColor?.id)` -----

  /** The filter's test: with no draft the id is undefined, which no string id equals. */
  predicate Keeps(c: Color, target: Option<string>) {
    target.None? || c.id != target.value
  }

  function RemoveById(colors: seq<Color>, target: Option<string>): (r: seq<Color>)
    ensures |r| <= |colors|
  {
    if colors == [] then []
    else if Keeps(colors[0], target) then [colors[0]] + RemoveById(colors[1..], target)
    else RemoveById(colors[1..], target)
  }

  /** Every colour the filter keeps comes from the list and passes the test. */
  lemma {:induction false} RemoveByIdSound(colors: seq<Color>, target: Option<string>)
    ensures forall c :: c in RemoveById(colors, target) ==> c in colors && Keeps(c, target)
  {
    if colors != [] {
      RemoveByIdSound(colors[1..], target);
    }
  }

  /** Filtering distributes over concatenation: kept colours stay in their relative order. */
  lemma {:induction false} RemoveByIdAppend(a: seq<Color>, b: seq<Color>, target: Option<string>)
    ensures RemoveById(a + b, target) == RemoveById(a, target) + RemoveById(b, target)
  {
    if a != [] {
      assert (a + b)[1..] == a[1..] + b;
      RemoveByIdAppend(a[1..], b, target);
    } else {
      assert a + b == b;
    }
  }

  /** Every colour the filter keeps is kept as often as it occurs; the others vanish. */
  lemma {:induction false} RemoveByIdCount(colors: seq<Color>, target: Option<string>, c: Color)
    ensures multiset(RemoveById(colors, target))[c] == if Keeps(c, target) then multiset(colors)[c] else 0
  {
    if colors != [] {
      RemoveByIdCount(colors[1..], target, c);
      assert colors == [colors[0]] + colors[1..];
      assert multiset(colors) == multiset([colors[0]]) + multiset(colors[1..]);
    }
  }

  /** When every colour passes the test (no draft, or no colour with the draft's id)
      the filter returns the list unchanged. */
  lemma {:induction false} RemoveByIdNothingToRemove(colors: seq<Color>, target: Option<string>)
    requires target.Some? ==> !HasId(colors, target.value)
    ensures RemoveById(colors, target) == colors
  {
    if colors != [] {
      assert target.Some? ==> colors[0].id != target.value;
      forall i | 0 <= i < |colors| - 1 && target.Some? ensures colors[1..][i].id != target.value {
        assert colors[1..][i] == colors[i + 1];
      }
      RemoveByIdNothingToRemove(colors[1..], target);
    }
  }

  /** A second delete with the same id changes nothing. */
  lemma RemoveByIdIdempotent(colors: seq<Color>, target: Option<string>)
    ensures RemoveById(RemoveById(colors, target), target) == RemoveById(colors, target)
  {
    var r := RemoveById(colors, target);
    RemoveByIdSound(colors, target);
    forall i | 0 <= i < |r| && target.Some? ensures r[i].id != target.value {
      assert r[i] in r;
    }
    RemoveByIdNothingToRemove(r, target);
  }

  /** The filter keeps ids distinct. */
  lemma {:induction false} RemoveByIdKeepsDistinct(colors: seq<Color>, target: Option<string>)
    requires DistinctIds(colors)
    ensures DistinctIds(RemoveById(colors, target))
  {
    if colors != [] {
      var tail := colors[1..];
      RemoveByIdKeepsDistinct(tail, target);
      var rt := RemoveById(tail, target);
      RemoveByIdSound(tail, target);
      forall c | c in rt ensures c.id != colors[0].id {
        var k :| 0 <= k < |tail| && tail[k] == c;
        assert colors[k + 1] == c;
      }
    }
  }

  /** With distinct ids, no colour before or after index k carries the id of colors[k]. */
  lemma DistinctIdsAround(colors: seq<Color>, k: nat)
    requires DistinctIds(colors) && k < |colors|
    ensures !HasId(colors[..k], colors[k].id) && !HasId(colors[k + 1..], colors[k].id)
  {
    var before, after := colors[..k], colors[k + 1..];
    forall i | 0 <= i < |before| ensures before[i].id != colors[k].id {
      assert before[i] == colors[i];
    }
    forall i | 0 <= i < |after| ensures after[i].id != colors[k].id {
      assert after[i] == colors[k + 1 + i];
    }
  }

  /** Deleting from a list in which only the middle colour fails the test leaves the
      colours before and after it, joined. */
  lemma RemoveByIdMiddle(before: seq<Color>, x: Color, after: seq<Color>, t: Option<string>)
    requires RemoveById(before, t) == before && RemoveById(after, t) == after && !Keeps(x, t)
    ensures RemoveById(before + [x] + after, t) == before + after
  {
    assert RemoveById([x] + after, t) == after by {
      assert ([x] + after)[1..] == after;
    }
    assert before + [x] + after == before + ([x] + after);
    RemoveByIdAppend(before, [x] + after, t);
  }

  /** With distinct ids, deleting the colour at index k removes exactly that colour. */
  lemma RemoveByIdAt(colors: seq<Color>, k: nat)
    requires DistinctIds(colors) && k < |colors|
    ensures RemoveById(colors, Some(colors[k].id)) == colors[..k] + colors[k + 1..]
  {
    var t := Some(colors[k].id);
    DistinctIdsAround(colors, k);
    RemoveByIdNothingToRemove(colors[..k], t);
    RemoveByIdNothingToRemove(colors[k + 1..], t);
    RemoveByIdMiddle(colors[..k], colors[k], colors[k + 1..], t);
    assert colors == colors[..k] + [colors[k]] + colors[k + 1..];
  }

  // ----- commit: `colors.map((color) => editedColor && color.id === editedColor.id ? editedColor : color)` -----

  function Committed(c: Color, draft: Option<Color>): Color {
    if draft.Some? && c.id == draft.value.id then draft.value else c
  }

  function ReplaceById(colors: seq<Color>, draft: Option<Color>): (r: seq<Color>)
    ensures |r| == |colors|
    ensures forall i :: 0 <= i < |colors| ==> r[i].id == colors[i].id
    ensures forall i :: 0 <= i < |colors| && draft.Some? && colors[i].id == draft.value.id ==> r[i] == draft.value
    ensures forall i :: 0 <= i < |colors| && (draft.None? || colors[i].id != draft.value.id) ==> r[i] == colors[i]
  {
    if colors == [] then [] else [Committed(colors[0], draft)] + ReplaceById(colors[1..], draft)
  }

  /** A commit whose draft matches no colour (or with no draft) leaves the list as it was. */
  lemma ReplaceByIdNoMatch(colors: seq<Color>, draft: Option<Color>)
    requires draft.Some? ==> !HasId(colors, draft.value.id)
    ensures ReplaceById(colors, draft) == colors
  {
    var r := ReplaceById(colors, draft);
    forall i | 0 <= i < |colors| ensures r[i] == colors[i] {
      assert draft.Some? ==> colors[i].id != draft.value.id;
    }
  }

  /** With distinct ids, committing a draft whose id sits at index k replaces that one
      element, in place. */
  lemma ReplaceByIdAt(colors: seq<Color>, k: nat, d: Color)
    requires DistinctIds(colors) && k < |colors| && colors[k].id == d.id
    ensures ReplaceById(colors, Some(d)) == colors[k := d]
  {
    var r := ReplaceById(colors, Some(d));
    forall i | 0 <= i < |colors| ensures r[i] == colors[k := d][i] {
      if i != k {
        assert colors[i].id != d.id;
      }
    }
  }

  /** The commit keeps every id at its index, so distinct ids stay distinct. */
  lemma ReplaceByIdKeepsDistinct(colors: seq<Color>, draft: Option<Color>)
    requires DistinctIds(colors)
    ensures DistinctIds(ReplaceById(colors, draft))
    ensures forall x :: HasId(ReplaceById(colors, draft), x) <==> HasId(colors, x)
  {
    var r := ReplaceById(colors, draft);
    forall x ensures HasId(r, x) <==> HasId(colors, x) {
      if HasId(r, x) {
        var i :| 0 <= i < |r| && r[i].id == x;
        assert colors[i].id == x;
      }
      if HasId(colors, x) {
        var i :| 0 <= i < |colors| && colors[i].id == x;
        assert r[i].id == x;
      }
    }
  }

  /** Committing the same draft twice is the same as committing it once. */
  lemma ReplaceByIdIdempotent(colors: seq<Color>, draft: Option<Color>)
    ensures ReplaceById(ReplaceById(colors, draft), draft) == ReplaceById(colors, draft)
  {
    var r := ReplaceById(colors, draft);
    var rr := ReplaceById(r, draft);
    forall i | 0 <= i < |colors| ensures rr[i] == r[i] {
    }
  }

  /** Committing an unedited draft, taken from the list itself, changes nothing. */
  lemma ReplaceByIdUnedited(colors: seq<Color>, k: nat)
    requires DistinctIds(colors) && k < |colors|
    ensures ReplaceById(colors, Some(colors[k])) == colors
  {
    ReplaceByIdAt(colors, k, colors[k]);
    assert colors[k := colors[k]] == colors;
  }
}
