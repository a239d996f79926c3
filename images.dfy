/**
 * Image queries and `_ensure_tags`: which of the expected tags exist, and
 * the `container image tag` commands that give an image its missing tags.
 */
module Images {
  import opened Wrappers
  import opened Commands
  import opened Engine

  /** The engine reads a reference without a tag as `<reference>:latest`. */
  function Normalize(reference: string): (r: string)
    ensures ':' in r && reference <= r
    ensures ':' in reference ==> r == reference
    ensures ':' !in reference ==> r == reference + ":latest"
  {
    if ':' in reference then reference else reference + ":latest"
  }

  /** `container images inspect reference` exits 0. */
  predicate InspectOk(reference: string, images: set<string>) {
    Normalize(reference) in images
  }

  /** A reference with an explicit tag needs no completion. */
  lemma TaggedIsNormal(repo: string, tag: string)
    ensures Normalize(repo + ":" + tag) == repo + ":" + tag
  {
    assert (repo + ":" + tag)[|repo|] == ':';
  }

  /** Two tags of one repository differ when their tag parts do. */
  lemma TaggedDistinct(repo: string, t: string, u: string)
    requires t != u
    ensures repo + ":" + t != repo + ":" + u
  {
    assert (repo + ":" + t)[|repo| + 1..] == t;
    assert (repo + ":" + u)[|repo| + 1..] == u;
  }

  lemma ExpectedAreNormal(repo: string, version: Option<string>)
    ensures forall t :: t in ExpectedTags(repo, version) ==> Normalize(t) == t
  {
    TaggedIsNormal(repo, "latest");
    if Pinned(version) {
      TaggedIsNormal(repo, version.value);
    }
  }

  /** The tags of `tags` whose inspection succeeds, in order: the list
      `existing` that `_ensure_tags` builds. */
  function Present(tags: seq<string>, images: set<string>): (r: seq<string>)
    ensures forall t :: t in r <==> t in tags && InspectOk(t, images)
    ensures |r| <= |tags|
    decreases |tags|
  {
    if tags == [] then []
    else
      var init := tags[..|tags| - 1];
      var last := tags[|tags| - 1];
      assert tags == init + [last];
      if InspectOk(last, images) then Present(init, images) + [last] else Present(init, images)
  }

  /** The first tag of `existing` is the first of `tags` that exists. */
  lemma {:induction false} PresentFirst(tags: seq<string>, images: set<string>)
    ensures var r := Present(tags, images);
      r != [] ==>
        exists k :: 0 <= k < |tags| && tags[k] == r[0] && InspectOk(tags[k], images) &&
                    (forall j :: 0 <= j < k ==> !InspectOk(tags[j], images))
    decreases |tags|
  {
    if tags != [] {
      var init := tags[..|tags| - 1];
      PresentFirst(init, images);
      var r := Present(tags, images);
      if Present(init, images) != [] {
        var k :| 0 <= k < |init| && init[k] == Present(init, images)[0] && InspectOk(init[k], images) &&
                 (forall j :: 0 <= j < k ==> !InspectOk(init[j], images));
        assert tags[k] == r[0];
        assert forall j :: 0 <= j < k ==> tags[j] == init[j];
      } else if r != [] {
        var k := |tags| - 1;
        assert forall j :: 0 <= j < k ==> init[j] in init && tags[j] == init[j];
        assert tags[k] == r[0];
      }
    }
  }

  /** The tags of `tags` that are not in `existing`, in order. */
  function Missing(tags: seq<string>, existing: seq<string>): (r: seq<string>)
    ensures forall t :: t in r <==> t in tags && t !in existing
    decreases |tags|
  {
    if tags == [] then []
    else
      var init := tags[..|tags| - 1];
      var last := tags[|tags| - 1];
      assert tags == init + [last];
      if last !in existing then Missing(init, existing) + [last] else Missing(init, existing)
  }

  /** One inspection per tag, in order. */
  function InspectCommands(tags: seq<string>): (r: seq<Command>)
    ensures |r| == |tags|
    ensures forall k :: 0 <= k < |r| ==> r[k] == InspectCommand(tags[k])
    decreases |tags|
  {
    if tags == [] then [] else InspectCommands(tags[..|tags| - 1]) + [InspectCommand(tags[|tags| - 1])]
  }

  /** One tag command from `source` per target, in order. */
  function TagCommands(source: string, targets: seq<string>): (r: seq<Command>)
    ensures |r| == |targets|
    ensures forall k :: 0 <= k < |r| ==> r[k] == TagCommand(source, targets[k])
    decreases |targets|
  {
    if targets == [] then [] else TagCommands(source, targets[..|targets| - 1]) + [TagCommand(source, targets[|targets| - 1])]
  }

  /** The tags in a list. */
  function Elements(tags: seq<string>): set<string> {
    set t | t in tags
  }

  /** The tags `_ensure_tags` gives the image: when some expected tag
      exists, every expected tag that does not; otherwise none. */
  function TagsToAdd(expected: seq<string>, images: set<string>): seq<string> {
    var existing := Present(expected, images);
    if existing == [] then [] else Missing(expected, existing)
  }

  /** The tag every missing one is copied from: the first existing one. */
  function TagSource(expected: seq<string>, images: set<string>): string {
    var existing := Present(expected, images);
    if existing == [] then "" else existing[0]
  }

  /** The world after tagging each of `added` from `source`. */
  function TagsApplied(w: World, source: string, added: seq<string>): World {
    w.(images := w.images + Elements(added), log := w.log + TagCommands(source, added))
  }

  /** `_ensure_tags(repo, version)`: inspect every expected tag, then tag
      each missing one from the first that exists. */
  function TagsReconciled(w: World, repo: string, version: Option<string>): (r: World)
    ensures r.running == w.running
    ensures w.images <= r.images
    ensures w.log + InspectCommands(ExpectedTags(repo, version)) <= r.log
  {
    var expected := ExpectedTags(repo, version);
    TagsApplied(w.(log := w.log + InspectCommands(expected)),
                TagSource(expected, w.images), TagsToAdd(expected, w.images))
  }

  /** Every tag command copies the first existing expected tag onto an
      expected tag that did not exist, and every expected tag that did not
      exist gets one, provided some expected tag existed. */
  lemma TagPlan(expected: seq<string>, images: set<string>)
    ensures var existing := Present(expected, images);
      var cmds := TagCommands(TagSource(expected, images), TagsToAdd(expected, images));
      && (existing == [] ==> cmds == [])
      && (forall c :: c in cmds ==>
            exists d :: c == TagCommand(existing[0], d) && d in expected && !InspectOk(d, images))
      && (existing != [] ==>
            forall d :: d in expected && !InspectOk(d, images) ==> TagCommand(existing[0], d) in cmds)
  {
    var existing := Present(expected, images);
    var added := TagsToAdd(expected, images);
    var cmds := TagCommands(TagSource(expected, images), added);
    forall c | c in cmds
      ensures exists d :: c == TagCommand(existing[0], d) && d in expected && !InspectOk(d, images)
    {
      var k :| 0 <= k < |cmds| && cmds[k] == c;
      assert added[k] in added;
    }
    if existing != [] {
      forall d | d in expected && !InspectOk(d, images)
        ensures TagCommand(existing[0], d) in cmds
      {
        var k :| 0 <= k < |added| && added[k] == d;
        assert cmds[k] == TagCommand(existing[0], d);
      }
    }
  }

  lemma HeadIsMember<T>(s: seq<T>)
    ensures s != [] ==> s[0] in s
  {
  }

  /** When every expected tag exists, or none does, nothing is tagged. */
  lemma NothingToTag(expected: seq<string>, images: set<string>)
    requires (forall t :: t in expected ==> InspectOk(t, images)) ||
             (forall t :: t in expected ==> !InspectOk(t, images))
    ensures TagsToAdd(expected, images) == []
  {
    var existing := Present(expected, images);
    if forall t :: t in expected ==> InspectOk(t, images) {
      HeadIsMember(Missing(expected, existing));
    } else {
      HeadIsMember(existing);
    }
  }

  /** After `_ensure_tags`, if some expected tag existed before, every
      expected tag exists; no other tag is added; and nothing but the tag
      set and the log changes. */
  lemma TagsReconciledCompletes(w: World, repo: string, version: Option<string>)
    ensures var expected := ExpectedTags(repo, version);
      var w' := TagsReconciled(w, repo, version);
      && w'.running == w.running
      && w.images <= w'.images <= w.images + Elements(expected)
      && ((exists t :: t in expected && t in w.images) ==> forall t :: t in expected ==> t in w'.images)
      && ((forall t :: t in expected ==> t !in w.images) ==> w'.images == w.images)
  {
    var expected := ExpectedTags(repo, version);
    ExpectedAreNormal(repo, version);
    var existing := Present(expected, w.images);
    if exists t :: t in expected && t in w.images {
      var t :| t in expected && t in w.images;
      assert t in existing;
    }
    if forall t :: t in expected ==> t !in w.images {
      NothingToTag(expected, w.images);
    }
  }

  /** The tags `_ensure_tags` leaves, in terms of sets: every expected tag
      when one of them exists, otherwise just the old ones. */
  lemma ReconciledImages(w: World, repo: string, version: Option<string>)
    ensures var e := Elements(ExpectedTags(repo, version));
      var r := TagsReconciled(w, repo, version).images;
      && w.images <= r <= w.images + e
      && (e * w.images != {} ==> r == w.images + e)
      && (e * w.images == {} ==> r == w.images)
  {
    TagsReconciledCompletes(w, repo, version);
    MeetEmpty(ExpectedTags(repo, version), w.images);
  }

  /** A list shares no tag with a set exactly when none of its tags is in it. */
  lemma MeetEmpty(tags: seq<string>, images: set<string>)
    ensures Elements(tags) * images == {} <==> forall t :: t in tags ==> t !in images
  {
    if Elements(tags) * images != {} {
      var t :| t in Elements(tags) * images;
      assert t in tags && t in images;
    } else {
      forall t | t in tags
        ensures t !in images
      {
        assert t in Elements(tags);
        assert t !in Elements(tags) * images;
      }
    }
  }

  /** Adding to `images` the tags of `e` that are in `built`. */
  lemma MeetBuilt(e: set<string>, images: set<string>, built: set<string>)
    ensures e * (images + e * built) == e * (images + built)
    ensures e * (images + built) == {} ==> images + e * built == images
    ensures (images + e * built) + e == images + e
  {
    assert e * built <= e * (images + built);
  }

  /** With only `repo:latest` present at a pinned version, `_ensure_tags`
      inspects both tags and copies `latest` onto the pinned tag. */
  lemma TagsReconciledLatestOnly(w: World, repo: string, v: string)
    requires v != "" && v != "latest"
    requires repo + ":latest" in w.images && repo + ":" + v !in w.images
    ensures var pinned := repo + ":" + v;
      var latest := repo + ":latest";
      var w' := TagsReconciled(w, repo, Some(v));
      && w'.log == w.log + [InspectCommand(pinned), InspectCommand(latest), TagCommand(latest, pinned)]
      && w'.images == w.images + {pinned}
  {
    var pinned := repo + ":" + v;
    var latest := repo + ":latest";
    LatestOnlyPlan(repo, v, w.images);
    var expected := [pinned, latest];
    assert expected[..1] == [pinned] && expected[..1][..0] == [];
    assert InspectCommands(expected) == [InspectCommand(pinned), InspectCommand(latest)];
    assert TagCommands(latest, [pinned]) == [TagCommand(latest, pinned)];
    assert Elements([pinned]) == {pinned};
  }

  /** The plan behind the lemma above: copy `latest` onto the pinned tag. */
  lemma LatestOnlyPlan(repo: string, v: string, images: set<string>)
    requires v != "" && v != "latest"
    requires repo + ":latest" in images && repo + ":" + v !in images
    ensures ExpectedTags(repo, Some(v)) == [repo + ":" + v, repo + ":latest"]
    ensures TagSource(ExpectedTags(repo, Some(v)), images) == repo + ":latest"
    ensures TagsToAdd(ExpectedTags(repo, Some(v)), images) == [repo + ":" + v]
  {
    var pinned := repo + ":" + v;
    var latest := repo + ":latest";
    var expected := ExpectedTags(repo, Some(v));
    assert expected == [pinned, latest];
    TaggedIsNormal(repo, v);
    TaggedIsNormal(repo, "latest");
    assert repo + ":" + "latest" == latest;
    TaggedDistinct(repo, v, "latest");
    assert !InspectOk(pinned, images) && InspectOk(latest, images);
    assert expected[..1] == [pinned] && expected[..1][..0] == [];
    assert Present(expected[..1], images) == [];
    var existing := Present(expected, images);
    assert existing == [latest];
    assert Missing(expected[..1], existing) == [pinned];
  }

  /** When every expected tag exists, `_ensure_tags` only inspects. */
  lemma TagsReconciledWhenComplete(w: World, repo: string, version: Option<string>)
    requires forall t :: t in ExpectedTags(repo, version) ==> t in w.images
    ensures TagsReconciled(w, repo, version) ==
      w.(log := w.log + InspectCommands(ExpectedTags(repo, version)))
  {
    ExpectedAreNormal(repo, version);
    NothingAdded(w.(log := w.log + InspectCommands(ExpectedTags(repo, version))), ExpectedTags(repo, version), w.images);
  }

  lemma NothingAdded(w: World, expected: seq<string>, images: set<string>)
    requires forall t :: t in expected ==> Normalize(t) == t && t in images
    ensures TagsApplied(w, TagSource(expected, images), TagsToAdd(expected, images)) == w
  {
    assert forall t :: t in expected ==> InspectOk(t, images);
    NothingToTag(expected, images);
    assert Elements([]) == {};
  }

  /** The recursive definitions read a list from its end, so a loop that
      walks it from the front extends them one element at a time. */
  lemma PresentSnoc(tags: seq<string>, t: string, images: set<string>)
    ensures Present(tags + [t], images) ==
      if InspectOk(t, images) then Present(tags, images) + [t] else Present(tags, images)
  {
    assert (tags + [t])[..|tags|] == tags;
  }

  lemma MissingSnoc(tags: seq<string>, t: string, existing: seq<string>)
    ensures Missing(tags + [t], existing) ==
      if t !in existing then Missing(tags, existing) + [t] else Missing(tags, existing)
  {
    assert (tags + [t])[..|tags|] == tags;
  }

  lemma InspectCommandsSnoc(tags: seq<string>, t: string)
    ensures InspectCommands(tags + [t]) == InspectCommands(tags) + [InspectCommand(t)]
  {
    assert (tags + [t])[..|tags|] == tags;
  }

  lemma TagCommandsSnoc(source: string, targets: seq<string>, t: string)
    ensures TagCommands(source, targets + [t]) == TagCommands(source, targets) + [TagCommand(source, t)]
  {
    assert (targets + [t])[..|targets|] == targets;
  }

  lemma ElementsSnoc(tags: seq<string>, t: string)
    ensures Elements(tags + [t]) == Elements(tags) + {t}
  {
    assert forall u :: u in tags + [t] <==> u in tags || u == t;
  }

  lemma TagsAppliedSnoc(w: World, source: string, added: seq<string>, t: string)
    ensures var v := TagsApplied(w, source, added);
      TagsApplied(w, source, added + [t]) ==
        v.(images := v.images + {t}, log := v.log + [TagCommand(source, t)])
  {
    ElementsSnoc(added, t);
    TagCommandsSnoc(source, added, t);
  }

  lemma MissingStep(expected: seq<string>, j: nat, existing: seq<string>)
    requires j < |expected|
    ensures Missing(expected[..j + 1], existing) ==
      if expected[j] in existing then Missing(expected[..j], existing)
      else Missing(expected[..j], existing) + [expected[j]]
  {
    assert expected[..j + 1] == expected[..j] + [expected[j]];
    MissingSnoc(expected[..j], expected[j], existing);
  }

  lemma InspectStep(expected: seq<string>, i: nat, images: set<string>)
    requires i < |expected|
    ensures Present(expected[..i + 1], images) ==
      if InspectOk(expected[i], images) then Present(expected[..i], images) + [expected[i]]
      else Present(expected[..i], images)
    ensures InspectCommands(expected[..i + 1]) == InspectCommands(expected[..i]) + [InspectCommand(expected[i])]
  {
    assert expected[..i + 1] == expected[..i] + [expected[i]];
    PresentSnoc(expected[..i], expected[i], images);
    InspectCommandsSnoc(expected[..i], expected[i]);
  }
}
