/** The list of selected images in script.js and the two edits it undergoes in place:
    the drag-and-drop reorder (two `splice` calls) and removal by id (`findIndex`, then
    one `splice`). */
module ImageList {
  import opened Script

  // ---------------------------------------------------------------- the splices

  /** `s.splice(i, 1)`: the element at i leaves, the rest close up. */
  function RemoveAt<T>(s: seq<T>, i: nat): (r: seq<T>)
    requires i < |s|
    ensures |r| == |s| - 1
    ensures forall k :: 0 <= k < i ==> r[k] == s[k]
    ensures forall k :: i <= k < |r| ==> r[k] == s[k + 1]
    ensures multiset(r) + multiset{s[i]} == multiset(s)
  {
    assert s == s[..i] + [s[i]] + s[i + 1..];
    s[..i] + s[i + 1..]
  }

  /** `s.splice(i, 0, x)`: x enters at position i, the rest move up. */
  function InsertAt<T>(s: seq<T>, i: nat, x: T): (r: seq<T>)
    requires i <= |s|
    ensures |r| == |s| + 1 && r[i] == x
    ensures forall k :: 0 <= k < i ==> r[k] == s[k]
    ensures forall k :: i < k < |r| ==> r[k] == s[k - 1]
    ensures multiset(r) == multiset(s) + multiset{x}
  {
    assert s == s[..i] + s[i..];
    s[..i] + [x] + s[i..]
  }

  /** The reorder (script.js:683-684): take the item at `from` out, put it back in at `to`. */
  function Moved<T>(s: seq<T>, from: nat, to: nat): (r: seq<T>)
    requires from < |s| && to < |s|
    ensures |r| == |s| && r[to] == s[from]
    ensures multiset(r) == multiset(s)
  {
    InsertAt(RemoveAt(s, from), to, s[from])
  }

  /** Where the item now at position k came from: the moved item lands at `to`, the
      items between the two positions shift by one towards `from`, all others stay. */
  function MovedFrom(from: nat, to: nat, k: nat): nat {
    if k == to then from
    else if from < to && from <= k < to then k + 1
    else if to < from && to < k <= from then k - 1
    else k
  }

  /** The reorder keeps the length, puts the former item at `from` at `to`, and moves
      every other item by at most one place, as `MovedFrom` says. */
  lemma MovedPositions<T>(s: seq<T>, from: nat, to: nat)
    requires from < |s| && to < |s|
    ensures |Moved(s, from, to)| == |s|
    ensures Moved(s, from, to)[to] == s[from]
    ensures forall k :: 0 <= k < |s| ==> MovedFrom(from, to, k) < |s| && Moved(s, from, to)[k] == s[MovedFrom(from, to, k)]
  {
    var r := RemoveAt(s, from);
    forall k | 0 <= k < |s|
      ensures Moved(s, from, to)[k] == s[MovedFrom(from, to, k)]
    {
      if k < to {
        assert Moved(s, from, to)[k] == r[k];
      } else if k > to {
        assert Moved(s, from, to)[k] == r[k - 1];
      }
    }
  }

  /** Apart from the moved item, the items keep their relative order: removing the
      moved item from the new list gives the old list without it. */
  lemma MovedKeepsOthersInOrder<T>(s: seq<T>, from: nat, to: nat)
    requires from < |s| && to < |s|
    ensures RemoveAt(Moved(s, from, to), to) == RemoveAt(s, from)
  {
    var m := Moved(s, from, to);
    var r := RemoveAt(s, from);
    assert |RemoveAt(m, to)| == |r|;
    forall k | 0 <= k < |r|
      ensures RemoveAt(m, to)[k] == r[k]
    {
      if k >= to {
        assert RemoveAt(m, to)[k] == m[k + 1];
      }
    }
  }

  /** Dragging the item back undoes the move. */
  lemma MovedBack<T>(s: seq<T>, from: nat, to: nat)
    requires from < |s| && to < |s|
    ensures Moved(Moved(s, from, to), to, from) == s
  {
    var m := Moved(s, from, to);
    MovedPositions(s, from, to);
    MovedKeepsOthersInOrder(s, from, to);
    assert RemoveAt(m, to) == RemoveAt(s, from);
    assert m[to] == s[from];
    var back := Moved(m, to, from);
    assert back == InsertAt(RemoveAt(s, from), from, s[from]);
    forall k | 0 <= k < |s|
      ensures back[k] == s[k]
    {
      if k > from {
        assert back[k] == RemoveAt(s, from)[k - 1];
      }
    }
  }

  // ---------------------------------------------------------------- removal by id

  /** `files.findIndex(img => img.id === id)`: the first position holding the id, or -1. */
  function FindIndex(files: seq<ImageFile>, id: real): (k: int)
    ensures -1 <= k < |files|
    ensures k == -1 <==> forall j :: 0 <= j < |files| ==> files[j].id != id
    ensures k >= 0 ==> files[k].id == id && forall j :: 0 <= j < k ==> files[j].id != id
  {
    if |files| == 0 then -1
    else if files[0].id == id then 0
    else
      var k := FindIndex(files[1..], id);
      assert forall j :: 1 <= j < |files| ==> files[j] == files[1..][j - 1];
      if k == -1 then -1 else k + 1
  }

  /** The list with its first item of the given id taken out, defined item by item
      from the front: it is one item shorter exactly when the id is present, and it
      holds no item the list did not. */
  function WithoutFirst(files: seq<ImageFile>, id: real): (r: seq<ImageFile>)
    ensures |r| == if FindIndex(files, id) >= 0 then |files| - 1 else |files|
    ensures multiset(r) <= multiset(files)
  {
    if |files| == 0 then []
    else if files[0].id == id then
      assert files == [files[0]] + files[1..];
      files[1..]
    else
      var rest := WithoutFirst(files[1..], id);
      assert files == [files[0]] + files[1..];
      assert FindIndex(files, id) >= 0 <==> FindIndex(files[1..], id) >= 0;
      [files[0]] + rest
  }

  /** Removing what is not there changes nothing. */
  lemma {:induction false} WithoutFirstAbsent(files: seq<ImageFile>, id: real)
    requires forall j :: 0 <= j < |files| ==> files[j].id != id
    ensures WithoutFirst(files, id) == files
  {
    if |files| > 0 {
      WithoutFirstAbsent(files[1..], id);
    }
  }

  /** Removing the first item of the id is the splice at its `findIndex` position. */
  lemma {:induction false} WithoutFirstIsSplice(files: seq<ImageFile>, id: real)
    requires FindIndex(files, id) >= 0
    ensures WithoutFirst(files, id) == RemoveAt(files, FindIndex(files, id))
  {
    if files[0].id != id {
      var rest := files[1..];
      var k := FindIndex(rest, id);
      assert FindIndex(files, id) == k + 1;
      WithoutFirstIsSplice(rest, id);
      assert WithoutFirst(files, id) == [files[0]] + (rest[..k] + rest[k + 1..]);
      SpliceAfterFirst(files, k);
      assert RemoveAt(files, k + 1) == files[..k + 1] + files[k + 2..];
    }
  }

  /** A splice behind the first item is that item before the splice of the rest. */
  lemma SpliceAfterFirst<T>(s: seq<T>, k: nat)
    requires k + 1 < |s|
    ensures s[..k + 1] + s[k + 2..] == [s[0]] + (s[1..][..k] + s[1..][k + 1..])
  {
    assert s[..k + 1] == [s[0]] + s[1..][..k];
  }

  /** When the id is present, exactly one item goes: the first one with that id; the
      items before it stay, the items after it close up, and the list is one shorter. */
  lemma WithoutFirstPresent(files: seq<ImageFile>, id: real, k: nat)
    requires k < |files| && files[k].id == id
    requires forall j :: 0 <= j < k ==> files[j].id != id
    ensures WithoutFirst(files, id) == files[..k] + files[k + 1..]
    ensures |WithoutFirst(files, id)| == |files| - 1
    ensures multiset(WithoutFirst(files, id)) + multiset{files[k]} == multiset(files)
  {
    assert FindIndex(files, id) == k;
    WithoutFirstIsSplice(files, id);
  }

  // ---------------------------------------------------------------- the list itself

  /** `selectedImageFiles`: the images in the order they are laid out. */
  class SelectedImages {
    var files: seq<ImageFile>

    constructor ()
      ensures files == []
    {
      files := [];
    }

    /** The Sortable `onEnd` handler (script.js:683-684).  Sortable reports the old and
        the new position of an item of the list, so both are positions of the list. */
    method Reorder(oldIndex: nat, newIndex: nat)
      requires oldIndex < |files| && newIndex < |files|
      modifies this
      ensures files == Moved(old(files), oldIndex, newIndex)
    {
      var movedItem := files[oldIndex];
      files := files[..oldIndex] + files[oldIndex + 1..];
      files := files[..newIndex] + [movedItem] + files[newIndex..];
    }

    /** `removeImage` (script.js:245-261): find the first image with the id and, if
        there is one, splice it out. */
    method RemoveImage(idToRemove: real)
      modifies this
      ensures files == WithoutFirst(old(files), idToRemove)
    {
      var indexToRemove := FindIndex(files, idToRemove);
      if indexToRemove > -1 {
        WithoutFirstIsSplice(files, idToRemove);
        files := files[..indexToRemove] + files[indexToRemove + 1..];
      } else {
        WithoutFirstAbsent(files, idToRemove);
      }
    }
  }
}
