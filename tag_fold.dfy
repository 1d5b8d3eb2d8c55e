/** The two shapes of fold the builders run over their tags: collect every
    payload of one kind in order (`Collect`), or keep the last one
    (`LastPicked`). A `pick` function says which tags a fold is about and
    what it takes from them. */
module TagFold {
  import opened Wrappers
  import opened Tags

  function AsSeq<T>(o: Option<T>): seq<T> {
    if o.Some? then [o.value] else []
  }

  /** The payloads `pick` takes, in tag order, as a push-in-a-loop
      accumulates them. */
  function Collect<T>(tags: seq<Tag>, pick: Tag -> Option<T>): seq<T> {
    if tags == [] then []
    else Collect(tags[..|tags| - 1], pick) + AsSeq(pick(tags[|tags| - 1]))
  }

  /** The payload of the last tag `pick` takes, as an overwrite-in-a-loop
      leaves it. */
  function LastPicked<T>(tags: seq<Tag>, pick: Tag -> Option<T>): Option<T> {
    if tags == [] then None
    else if pick(tags[|tags| - 1]).Some? then pick(tags[|tags| - 1])
    else LastPicked(tags[..|tags| - 1], pick)
  }

  /** Reference definition: the tags `pick` takes, front to back. */
  function Kept<T>(tags: seq<Tag>, pick: Tag -> Option<T>): seq<Tag> {
    if tags == [] then []
    else (if pick(tags[0]).Some? then [tags[0]] else []) + Kept(tags[1..], pick)
  }

  lemma {:induction false} KeptAppend<T>(a: seq<Tag>, b: seq<Tag>, pick: Tag -> Option<T>)
    ensures Kept(a + b, pick) == Kept(a, pick) + Kept(b, pick)
    decreases |a|
  {
    if a != [] {
      assert (a + b)[1..] == a[1..] + b;
      KeptAppend(a[1..], b, pick);
    } else {
      assert a + b == b;
    }
  }

  /** Kept holds exactly the tags `pick` takes. */
  lemma {:induction false} KeptMembers<T>(tags: seq<Tag>, pick: Tag -> Option<T>)
    ensures forall t :: t in Kept(tags, pick) <==> t in tags && pick(t).Some?
    decreases |tags|
  {
    if tags != [] {
      KeptMembers(tags[1..], pick);
      assert tags == [tags[0]] + tags[1..];
    }
  }

  /** `Collect` takes one payload from each kept tag, in the same order:
      nothing is dropped, reordered or merged, duplicates included. */
  lemma {:induction false} CollectIsKept<T>(tags: seq<Tag>, pick: Tag -> Option<T>)
    ensures |Collect(tags, pick)| == |Kept(tags, pick)|
    ensures forall k :: 0 <= k < |Kept(tags, pick)| ==>
              pick(Kept(tags, pick)[k]) == Some(Collect(tags, pick)[k])
    decreases |tags|
  {
    if tags != [] {
      var init, last := tags[..|tags| - 1], tags[|tags| - 1];
      CollectIsKept(init, pick);
      assert tags == init + [last];
      KeptAppend(init, [last], pick);
      assert Kept([last], pick) == (if pick(last).Some? then [last] else []) + Kept([], pick);
    }
  }

  /** Collecting over a concatenation concatenates the collections. */
  lemma {:induction false} CollectAppend<T>(a: seq<Tag>, b: seq<Tag>, pick: Tag -> Option<T>)
    ensures Collect(a + b, pick) == Collect(a, pick) + Collect(b, pick)
    decreases |b|
  {
    if b == [] {
      assert a + b == a;
    } else {
      var init := b[..|b| - 1];
      CollectAppend(a, init, pick);
      assert (a + b)[..|a + b| - 1] == a + init;
    }
  }

  /** Nothing is collected exactly when `pick` takes no tag. */
  lemma {:induction false} CollectEmpty<T>(tags: seq<Tag>, pick: Tag -> Option<T>)
    ensures Collect(tags, pick) == [] <==> forall i :: 0 <= i < |tags| ==> pick(tags[i]).None?
    decreases |tags|
  {
    if tags != [] {
      var init := tags[..|tags| - 1];
      CollectEmpty(init, pick);
      assert forall i :: 0 <= i < |init| ==> init[i] == tags[i];
    }
  }

  /** When `pick` hands back the tag itself, the collection is the kept tags. */
  lemma CollectSelf(tags: seq<Tag>, pick: Tag -> Option<Tag>)
    requires forall t :: pick(t).Some? ==> pick(t).value == t
    ensures Collect(tags, pick) == Kept(tags, pick)
  {
    CollectIsKept(tags, pick);
  }

  /** Last wins: the result is absent exactly when `pick` takes no tag, and
      otherwise it is the payload of a taken tag with none taken after it. */
  lemma {:induction false} LastPickedIsLast<T>(tags: seq<Tag>, pick: Tag -> Option<T>)
    ensures LastPicked(tags, pick).None? <==> forall i :: 0 <= i < |tags| ==> pick(tags[i]).None?
    ensures LastPicked(tags, pick).Some? ==>
              exists i :: && 0 <= i < |tags|
                          && pick(tags[i]) == LastPicked(tags, pick)
                          && forall j :: i < j < |tags| ==> pick(tags[j]).None?
    decreases |tags|
  {
    if tags != [] {
      var n := |tags| - 1;
      var init := tags[..n];
      LastPickedIsLast(init, pick);
      assert forall i :: 0 <= i < n ==> init[i] == tags[i];
      if pick(tags[n]).Some? {
        assert pick(tags[n]) == LastPicked(tags, pick);
      } else if LastPicked(init, pick).Some? {
        var i :| 0 <= i < n && pick(init[i]) == LastPicked(init, pick)
                 && forall j :: i < j < n ==> pick(init[j]).None?;
        assert pick(tags[i]) == LastPicked(tags, pick);
      }
    }
  }

  /** Appending one tag: it is collected after the rest if `pick` takes it. */
  lemma CollectSnoc<T>(tags: seq<Tag>, t: Tag, pick: Tag -> Option<T>)
    ensures Collect(tags + [t], pick) == Collect(tags, pick) + AsSeq(pick(t))
    ensures LastPicked(tags + [t], pick) == if pick(t).Some? then pick(t) else LastPicked(tags, pick)
  {
    assert (tags + [t])[..|tags|] == tags;
  }
}
