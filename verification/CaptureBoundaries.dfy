/** Boundaries of what one capture may copy: no two destinations of a config set collide, and registry
  * keys are compared as subtrees. */
module CaptureBoundaries {
  import opened Text

  datatype CopyItem = CopyItem(source: string, destination: string)

  predicate Collides(a: string, b: string) {
    PathsOverlap(Lower(a), Lower(b), '/')
  }

  predicate Clear(items: seq<CopyItem>) {
    forall i, j :: 0 <= i < j < |items| ==> !Collides(items[i].destination, items[j].destination)
  }

  class CopyPreflight {
    var items: seq<CopyItem>

    constructor ()
      ensures items == []
    {
      items := [];
    }

    /** Accepts a copy exactly when its source can be read and its destination is clear of all earlier ones. */
    method AddItem(item: CopyItem, readable: bool) returns (ok: bool)
      modifies this
      requires Clear(items)
      ensures ok <==> readable && forall k :: 0 <= k < |old(items)| ==>
        !Collides(item.destination, old(items)[k].destination)
      ensures items == if ok then old(items) + [item] else old(items)
      ensures Clear(items)
    {
      for n := 0 to |items|
        invariant items == old(items)
        invariant forall k :: 0 <= k < n ==> !Collides(item.destination, items[k].destination)
      {
        if Collides(item.destination, items[n].destination) {
          return false;
        }
      }
      if !readable {
        return false;
      }
      forall k | 0 <= k < |items| ensures !Collides(items[k].destination, item.destination) {
        PathsOverlapIsNested(Lower(items[k].destination), Lower(item.destination), '/');
      }
      items := items + [item];
      return true;
    }
  }

  predicate WrittenBy(item: CopyItem, place: seq<string>) {
    InSubtree(Split(Lower(item.destination), '/'), place)
  }

  /** So no folded location of the payload is written by two items. */
  lemma OneWriterEach(items: seq<CopyItem>, i: nat, j: nat, place: seq<string>)
    requires Clear(items) && i < j < |items|
    ensures !(WrittenBy(items[i], place) && WrittenBy(items[j], place))
  {
    var a, b := Lower(items[i].destination), Lower(items[j].destination);
    PathsOverlapIsNested(a, b, '/');
    SubtreesMeet(Split(a, '/'), Split(b, '/'));
  }

  // ----- registry keys -----

  predicate RegistrySubtreesOverlap(first: string, second: string) {
    PathsOverlap(Lower(first), Lower(second), '\\')
  }

  predicate RegistryKeyContains(root: string, key: string) {
    AtOrBelow(Lower(root), Lower(key), '\\')
  }

  function KeyPath(key: string): seq<string> {
    Split(Lower(key), '\\')
  }

  /** Two authored keys overlap exactly when some key lies in both subtrees, and a key contains another
    * exactly when it contains its whole subtree. */
  lemma RegistryChecksAreSubtrees(first: string, second: string)
    ensures RegistrySubtreesOverlap(first, second) <==>
      exists key: seq<string> :: InSubtree(KeyPath(first), key) && InSubtree(KeyPath(second), key)
    ensures RegistryKeyContains(first, second) <==>
      forall key: seq<string> :: InSubtree(KeyPath(second), key) ==> InSubtree(KeyPath(first), key)
  {
    PathsOverlapIsNested(Lower(first), Lower(second), '\\');
    SubtreesMeet(KeyPath(first), KeyPath(second));
    AtOrBelowIsComponentPrefix(Lower(first), Lower(second), '\\');
    assert InSubtree(KeyPath(second), KeyPath(second));
    forall key: seq<string> | InSubtree(KeyPath(first), KeyPath(second)) && InSubtree(KeyPath(second), key)
      ensures InSubtree(KeyPath(first), key)
    {
      assert KeyPath(first) == KeyPath(second)[..|KeyPath(first)|] == key[..|KeyPath(first)|];
    }
  }
}
