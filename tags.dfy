/** The tag list of an osfstorage file: `add_tag` and `remove_tag` on the
    list, with the registration check and the tag registry lookup. */
module Tags {
  import opened Types

  predicate NoDup<T(==)>(s: seq<T>) {
    forall i, j :: 0 <= i < j < |s| ==> s[i] != s[j]
  }

  /** Python's `list.remove(x)`: drop the first occurrence of `x`. */
  function RemoveFirst<T(==)>(s: seq<T>, x: T): (r: seq<T>)
    requires x in s
    ensures |r| == |s| - 1
    ensures multiset(r) == multiset(s) - multiset{x}
  {
    assert s == [s[0]] + s[1..];
    if s[0] == x then s[1..] else [s[0]] + RemoveFirst(s[1..], x)
  }

  /** `add_tag` on the list: nothing happens when the tag is already there
      or the project is a registration; otherwise the tag is appended.  The
      result is whether it was added, and the new list. */
  function AddTag(tags: seq<TagName>, tag: TagName, isRegistration: bool): (r: (bool, seq<TagName>))
    ensures r.0 <==> tag !in tags && !isRegistration
    ensures r.1 == if r.0 then tags + [tag] else tags
  {
    if tag !in tags && !isRegistration then (true, tags + [tag]) else (false, tags)
  }

  /** `remove_tag` on the list, checking in the order of the Python code: a
      registration refuses first, then a tag the registry does not know,
      then a tag the file does not carry. */
  function RemoveTag(tags: seq<TagName>, known: set<TagName>, tag: TagName, isRegistration: bool): (r: Result<seq<TagName>>)
    ensures isRegistration ==> r == Err(NodeState)
    ensures !isRegistration && tag !in known ==> r == Err(InvalidTag)
    ensures !isRegistration && tag in known && tag !in tags ==> r == Err(TagNotFound)
    ensures r.Ok? <==> !isRegistration && tag in known && tag in tags
    ensures r.Ok? ==> multiset(r.value) == multiset(tags) - multiset{tag}
  {
    if isRegistration then Err(NodeState)
    else if tag !in known then Err(InvalidTag)
    else if tag !in tags then Err(TagNotFound)
    else Ok(RemoveFirst(tags, tag))
  }

  /** Adding keeps the list free of repeats, and afterwards a file of a
      project that is not a registration carries the tag, exactly once. */
  lemma AddTagKeepsNoDup(tags: seq<TagName>, tag: TagName, isRegistration: bool)
    requires NoDup(tags)
    ensures var (_, tags') := AddTag(tags, tag, isRegistration);
      NoDup(tags') && (!isRegistration ==> multiset(tags')[tag] == 1)
  {
    var (_, tags') := AddTag(tags, tag, isRegistration);
    if tag in tags {
      var i :| 0 <= i < |tags| && tags[i] == tag;
      assert tags == tags[..i] + [tag] + tags[i + 1..];
      assert tag !in tags[..i] && tag !in tags[i + 1..];
    } else {
      assert tags' == tags + [tag] || tags' == tags;
    }
  }

  /** Removing from a list without repeats leaves no trace of the tag and no
      repeats; every other tag stays. */
  lemma RemoveTagClears(tags: seq<TagName>, known: set<TagName>, tag: TagName, isRegistration: bool)
    requires NoDup(tags)
    requires RemoveTag(tags, known, tag, isRegistration).Ok?
    ensures var tags' := RemoveTag(tags, known, tag, isRegistration).value;
      tag !in tags' && NoDup(tags') && forall x :: x in tags' <==> x in tags && x != tag
  {
    var i :| 0 <= i < |tags| && tags[i] == tag;
    CutOut(tags, i);
    RemoveFirstAt(tags, tag, i);
  }

  /** Cutting one position out of a list without repeats removes exactly
      that element and keeps the list free of repeats. */
  lemma CutOut<T>(s: seq<T>, i: nat)
    requires NoDup(s) && i < |s|
    ensures s[i] !in s[..i]
    ensures NoDup(s[..i] + s[i + 1..])
    ensures forall x :: x in s[..i] + s[i + 1..] <==> x in s && x != s[i]
  {
    var r := s[..i] + s[i + 1..];
    assert |r| == |s| - 1;
    assert forall k :: 0 <= k < i ==> r[k] == s[k];
    assert forall k :: i <= k < |r| ==> r[k] == s[k + 1];
    forall x | x in s && x != s[i]
      ensures x in r
    {
      var k :| 0 <= k < |s| && s[k] == x;
      if k < i {
        assert r[k] == x;
      } else {
        assert r[k - 1] == x;
      }
    }
  }

  /** `list.remove` cuts out the first position holding the element. */
  lemma {:induction false} RemoveFirstAt<T>(s: seq<T>, x: T, i: nat)
    requires i < |s| && s[i] == x && x !in s[..i]
    ensures RemoveFirst(s, x) == s[..i] + s[i + 1..]
  {
    if i > 0 {
      assert s[0] == s[..i][0];
      assert s[1..][..i - 1] == s[1..i];
      RemoveFirstAt(s[1..], x, i - 1);
      assert [s[0]] + s[1..i] == s[..i];
    }
  }

  /** `remove_tag` undoes a successful `add_tag`: the tag is now in the
      registry and on the file, and removing it restores the old list. */
  lemma AddThenRemove(tags: seq<TagName>, known: set<TagName>, tag: TagName)
    requires AddTag(tags, tag, false).0
    ensures RemoveTag(AddTag(tags, tag, false).1, known + {tag}, tag, false) == Ok(tags)
  {
    var tags' := tags + [tag];
    RemoveFirstLast(tags, tag);
  }

  lemma {:induction false} RemoveFirstLast<T>(s: seq<T>, x: T)
    requires x !in s
    ensures RemoveFirst(s + [x], x) == s
  {
    if s != [] {
      assert (s + [x])[1..] == s[1..] + [x];
      RemoveFirstLast(s[1..], x);
      assert [s[0]] + s[1..] == s;
    }
  }
}
