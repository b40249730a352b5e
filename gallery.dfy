/** The thumbnail grid: which column each image goes to, which checkboxes
    start ticked, and the list of ticked image indices. The widget state is a
    map from image index to the value the user has set; an index the user
    never touched shows its default. */
module Gallery {

  const MaxDefaultImages := 3
  const ColumnCount := 5

  /** The first `MaxDefaultImages` images start ticked. */
  predicate DefaultChecked(i: nat) {
    i < MaxDefaultImages
  }

  /** The value checkbox `i` reports: the user's choice, else its default. */
  predicate CheckboxValue(toggled: map<nat, bool>, i: nat) {
    if i in toggled then toggled[i] else DefaultChecked(i)
  }

  /** Image `i` goes to column `i % 5`: row `i / 5`, filled left to right. */
  function ColumnOf(i: nat): (c: nat)
    ensures c < ColumnCount
    ensures i == (i / ColumnCount) * ColumnCount + c
  {
    i % ColumnCount
  }

  /** The ticked indices among the first `n` images, in increasing order. */
  function Selected(n: nat, toggled: map<nat, bool>): seq<nat>
  {
    if n == 0 then []
    else Selected(n - 1, toggled) + (if CheckboxValue(toggled, n - 1) then [n - 1] else [])
  }

  /** The source's loop over the images, appending each ticked index. */
  method SelectImages(n: nat, toggled: map<nat, bool>) returns (selectedImages: seq<nat>)
    ensures selectedImages == Selected(n, toggled)
  {
    selectedImages := [];
    for i := 0 to n
      invariant selectedImages == Selected(i, toggled)
    {
      if CheckboxValue(toggled, i) {
        selectedImages := selectedImages + [i];
      }
    }
  }

  /** An index is listed exactly when it is an image and its box is ticked. */
  lemma {:induction false} SelectedMembers(n: nat, toggled: map<nat, bool>, i: nat)
    ensures i in Selected(n, toggled) <==> i < n && CheckboxValue(toggled, i)
  {
    if n > 0 {
      SelectedMembers(n - 1, toggled, i);
    }
  }

  /** The list is strictly increasing, so no index is listed twice. */
  lemma {:induction false} SelectedIncreasing(n: nat, toggled: map<nat, bool>)
    ensures forall a, b :: 0 <= a < b < |Selected(n, toggled)| ==> Selected(n, toggled)[a] < Selected(n, toggled)[b]
    ensures forall a :: 0 <= a < |Selected(n, toggled)| ==> Selected(n, toggled)[a] < n
  {
    if n > 0 {
      SelectedIncreasing(n - 1, toggled);
    }
  }

  /** Untouched, the grid ticks the first three images (or all, if fewer). */
  lemma {:induction false} DefaultSelection(n: nat)
    ensures Selected(n, map[]) == seq(if n < MaxDefaultImages then n else MaxDefaultImages, i => i)
  {
    if n > 0 {
      DefaultSelection(n - 1);
    }
  }
}
