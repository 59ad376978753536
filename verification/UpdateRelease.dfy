/** Choosing the release to offer (crates/overcrow-control/src/update_release.rs). Tags,
    pages and assets arrive with the outcome of their text validation; versions are
    compared by their place in the total order of versions. */
module UpdateRelease {
  import opened Common

  const MAX_RELEASES := 20
  const MAX_RELEASE_ASSETS := 20

  datatype Version = Version(rank: int, pre: bool)

  datatype ReleaseChannel = Stable | PreRelease

  /** `ReleaseChannel::from_current`. */
  function ChannelOf(version: Version): ReleaseChannel { if version.pre then PreRelease else Stable }

  datatype UpdateAsset = UpdateAsset(name: string, apiUrl: string, size: nat, sha256: seq<int>)

  datatype UpdateCandidate = UpdateCandidate(version: Version, releasePage: string, asset: Option<UpdateAsset>)

  /** `valid` is the outcome of `validate_asset`. */
  datatype ListedAsset = ListedAsset(name: string, valid: Option<UpdateAsset>)

  /** `version` and `page` are the outcomes of validating the tag and the page address. */
  datatype Release = Release(version: Option<Version>, page: Option<string>, draft: bool, prerelease: bool,
                             assets: seq<ListedAsset>)

  // --- assets -----------------------------------------------------------------------

  function Matches(assets: seq<ListedAsset>, name: string): (r: set<nat>)
    ensures forall i :: i in r ==> i < |assets|
  {
    set i | 0 <= i < |assets| && assets[i].name == name
  }

  /** What `select_asset` answers: the asset carrying the expected name if there is exactly
      one and it is valid; an error exactly if there are several. */
  ghost predicate AssetSelected(assets: seq<ListedAsset>, expected: Option<string>, r: Result<Option<UpdateAsset>>)
  {
    if expected.None? then r == Ok(None)
    else
      var matches := Matches(assets, expected.value);
      && (r.Err? <==> exists i, j :: i in matches && j in matches && i != j)
      && (matches == {} ==> r == Ok(None))
      && (r.Ok? ==> forall i :: i in matches ==> r.value == assets[i].valid)
  }

  method SelectAsset(assets: seq<ListedAsset>, expected: Option<string>) returns (r: Result<Option<UpdateAsset>>)
    ensures AssetSelected(assets, expected, r)
  {
    if expected.None? {
      return Ok(None);
    }
    var first: Option<nat> := None;
    var i := 0;
    while i < |assets|
      invariant 0 <= i <= |assets|
      invariant first.None? ==> forall j :: 0 <= j < i ==> assets[j].name != expected.value
      invariant first.Some? ==> first.value < i && assets[first.value].name == expected.value
      invariant first.Some? ==> forall j :: 0 <= j < i && j != first.value ==> assets[j].name != expected.value
    {
      if assets[i].name == expected.value {
        if first.Some? {
          assert first.value in Matches(assets, expected.value) && i in Matches(assets, expected.value);
          return Err;
        }
        first := Some(i);
      }
      i := i + 1;
    }
    if first.None? {
      return Ok(None);
    }
    assert first.value in Matches(assets, expected.value);
    return Ok(assets[first.value].valid);
  }

  // --- releases ---------------------------------------------------------------------

  predicate Eligible(release: Release, current: Version, channel: ReleaseChannel)
  {
    && release.version.Some? && !release.draft && release.version.value.rank > current.rank
    && !(channel.Stable? && release.prerelease) && release.prerelease == release.version.value.pre
  }

  ghost predicate Ambiguous(release: Release, nameFor: Version -> Option<string>)
    requires release.version.Some?
  {
    AssetSelected(release.assets, nameFor(release.version.value), Err)
  }

  ghost predicate Faulty(release: Release, current: Version, channel: ReleaseChannel,
                         nameFor: Version -> Option<string>)
  {
    || |release.assets| > MAX_RELEASE_ASSETS
    || (Eligible(release, current, channel) && (release.page.None? || Ambiguous(release, nameFor)))
  }

  ghost predicate Offers(release: Release, candidate: UpdateCandidate, nameFor: Version -> Option<string>)
  {
    && release.version == Some(candidate.version) && release.page == Some(candidate.releasePage)
    && AssetSelected(release.assets, nameFor(candidate.version), Ok(candidate.asset))
  }

  /** The answer due: an error exactly if the index is too long or a release is faulty;
      otherwise the first release among the eligible ones of greatest version, or nothing
      exactly if none is eligible. */
  ghost predicate Selected(releases: seq<Release>, current: Version, channel: ReleaseChannel,
                           nameFor: Version -> Option<string>, r: Result<Option<UpdateCandidate>>)
  {
    && (r.Err?
        <==> || |releases| > MAX_RELEASES
             || exists i :: 0 <= i < |releases| && Faulty(releases[i], current, channel, nameFor))
    && (r.Ok? ==> Greatest(releases, current, channel, nameFor, r.value))
  }

  ghost predicate Greatest(releases: seq<Release>, current: Version, channel: ReleaseChannel,
                           nameFor: Version -> Option<string>, selected: Option<UpdateCandidate>)
  {
    match selected
    case None => forall i :: 0 <= i < |releases| ==> !Eligible(releases[i], current, channel)
    case Some(candidate) =>
      exists k :: Tops(releases, current, channel, nameFor, candidate, k)
  }

  ghost predicate Tops(releases: seq<Release>, current: Version, channel: ReleaseChannel,
                       nameFor: Version -> Option<string>, candidate: UpdateCandidate, k: nat)
  {
    && k < |releases| && Eligible(releases[k], current, channel) && Offers(releases[k], candidate, nameFor)
    && forall i :: 0 <= i < |releases| && Eligible(releases[i], current, channel) ==>
      (if i < k then releases[i].version.value.rank < candidate.version.rank
       else releases[i].version.value.rank <= candidate.version.rank)
  }

  method SelectRelease(releases: seq<Release>, current: Version, channel: ReleaseChannel,
                       nameFor: Version -> Option<string>)
    returns (r: Result<Option<UpdateCandidate>>)
    ensures Selected(releases, current, channel, nameFor, r)
  {
    hide AssetSelected;
    if |releases| > MAX_RELEASES {
      return Err;
    }
    var selected: Option<UpdateCandidate> := None;
    var i := 0;
    while i < |releases|
      invariant 0 <= i <= |releases|
      invariant forall j :: 0 <= j < i ==> !Faulty(releases[j], current, channel, nameFor)
      invariant Greatest(releases[..i], current, channel, nameFor, selected)
    {
      var release := releases[i];
      if |release.assets| > MAX_RELEASE_ASSETS {
        assert Faulty(releases[i], current, channel, nameFor);
        return Err;
      }
      if Eligible(release, current, channel) {
        if release.page.None? {
          assert Faulty(releases[i], current, channel, nameFor);
          return Err;
        }
        var asset := SelectAsset(release.assets, nameFor(release.version.value));
        if asset.Err? {
          assert Faulty(releases[i], current, channel, nameFor);
          return Err;
        }
        OneAnswer(release.assets, nameFor(release.version.value), asset, Err);
        var candidate := UpdateCandidate(release.version.value, release.page.value, asset.value);
        Extend(releases, current, channel, nameFor, selected, i, candidate);
        if selected.None? || candidate.version.rank > selected.value.version.rank {
          selected := Some(candidate);
        }
      } else {
        Skip(releases, current, channel, nameFor, selected, i);
      }
      i := i + 1;
    }
    assert releases[..i] == releases;
    r := Ok(selected);
  }

  lemma Skip(releases: seq<Release>, current: Version, channel: ReleaseChannel, nameFor: Version -> Option<string>,
             selected: Option<UpdateCandidate>, i: nat)
    requires i < |releases| && !Eligible(releases[i], current, channel)
    requires Greatest(releases[..i], current, channel, nameFor, selected)
    ensures Greatest(releases[..i + 1], current, channel, nameFor, selected)
  {
    if selected.Some? {
      var k :| Tops(releases[..i], current, channel, nameFor, selected.value, k);
      assert Tops(releases[..i + 1], current, channel, nameFor, selected.value, k);
    }
  }

  lemma Extend(releases: seq<Release>, current: Version, channel: ReleaseChannel, nameFor: Version -> Option<string>,
               selected: Option<UpdateCandidate>, i: nat, candidate: UpdateCandidate)
    requires i < |releases| && Eligible(releases[i], current, channel) && Offers(releases[i], candidate, nameFor)
    requires Greatest(releases[..i], current, channel, nameFor, selected)
    ensures var better := selected.None? || candidate.version.rank > selected.value.version.rank;
            var next := if better then Some(candidate) else selected;
            Greatest(releases[..i + 1], current, channel, nameFor, next)
  {
    hide AssetSelected;
    if selected.None? || candidate.version.rank > selected.value.version.rank {
      assert Tops(releases[..i + 1], current, channel, nameFor, candidate, i) by {
        if selected.Some? {
          var k :| Tops(releases[..i], current, channel, nameFor, selected.value, k);
        }
      }
    } else {
      var k :| Tops(releases[..i], current, channel, nameFor, selected.value, k);
      assert Tops(releases[..i + 1], current, channel, nameFor, selected.value, k);
    }
  }

  /** What is offered is published and newer than what runs, its flag agrees with its
      version, and it is no pre-release in the stable channel. */
  lemma OfferedIsFit(releases: seq<Release>, current: Version, channel: ReleaseChannel,
                     nameFor: Version -> Option<string>, candidate: UpdateCandidate) returns (k: nat)
    requires Selected(releases, current, channel, nameFor, Ok(Some(candidate)))
    ensures k < |releases| && releases[k].version == Some(candidate.version) && !releases[k].draft
    ensures candidate.version.rank > current.rank && candidate.version.pre == releases[k].prerelease
    ensures channel.Stable? ==> !candidate.version.pre
  {
    hide AssetSelected;
    k :| Tops(releases, current, channel, nameFor, candidate, k);
  }

  /** A release like that is never passed over for an older one, nor for none. */
  lemma FitIsOffered(releases: seq<Release>, current: Version, channel: ReleaseChannel,
                     nameFor: Version -> Option<string>, selected: Option<UpdateCandidate>, i: nat, version: Version)
    requires Selected(releases, current, channel, nameFor, Ok(selected))
    requires i < |releases| && releases[i].version == Some(version) && !releases[i].draft && version.rank > current.rank
    requires version.pre == releases[i].prerelease && (channel.Stable? ==> !version.pre)
    ensures selected.Some? && selected.value.version.rank >= version.rank
  {
    hide AssetSelected;
    assert Eligible(releases[i], current, channel);
    if selected.Some? {
      var k :| Tops(releases, current, channel, nameFor, selected.value, k);
    }
  }

  /** The index is refused exactly if it lists more than 20 releases, one of them with more
      than 20 assets, or one fit to be offered that has no page or twice the asset looked for. */
  lemma RefusedExactly(releases: seq<Release>, current: Version, channel: ReleaseChannel,
                       nameFor: Version -> Option<string>, r: Result<Option<UpdateCandidate>>)
    requires Selected(releases, current, channel, nameFor, r)
    ensures r.Err? <==> || |releases| > 20
                        || exists i :: 0 <= i < |releases| && Spoils(releases[i], current, channel, nameFor)
  {
    forall i | 0 <= i < |releases|
      ensures Faulty(releases[i], current, channel, nameFor) <==> Spoils(releases[i], current, channel, nameFor)
    {
      TwiceIsAmbiguous(releases[i], nameFor);
    }
  }

  ghost predicate Spoils(release: Release, current: Version, channel: ReleaseChannel,
                         nameFor: Version -> Option<string>)
  {
    || |release.assets| > 20
    || match release.version
       case None => false
       case Some(version) =>
         && !release.draft && version.rank > current.rank && release.prerelease == version.pre
         && (channel.Stable? ==> !version.pre) && (release.page.None? || Twice(release.assets, nameFor(version)))
  }

  ghost predicate Twice(assets: seq<ListedAsset>, name: Option<string>)
  {
    name.Some? && exists i, j :: 0 <= i < j < |assets| && assets[i].name == assets[j].name == name.value
  }

  lemma TwiceIsAmbiguous(release: Release, nameFor: Version -> Option<string>)
    ensures release.version.Some? ==>
              (Ambiguous(release, nameFor) <==> Twice(release.assets, nameFor(release.version.value)))
  {
    if release.version.Some? && nameFor(release.version.value).Some? {
      var matches := Matches(release.assets, nameFor(release.version.value).value);
      forall i, j | 0 <= i < j < |release.assets|
                    && release.assets[i].name == release.assets[j].name == nameFor(release.version.value).value
        ensures i in matches && j in matches && i != j
      {
      }
      if i, j :| i in matches && j in matches && i != j {
        var low, high := if i < j then i else j, if i < j then j else i;
        assert release.assets[low].name == release.assets[high].name;
      }
    }
  }

  // --- uniqueness and fixpoint ------------------------------------------------------

  lemma OneAnswer(assets: seq<ListedAsset>, expected: Option<string>, a: Result<Option<UpdateAsset>>,
                  b: Result<Option<UpdateAsset>>)
    ensures AssetSelected(assets, expected, a) && AssetSelected(assets, expected, b) ==> a == b
  {
    if expected.Some? && a.Ok? && b.Ok? && Matches(assets, expected.value) != {} {
      var i :| i in Matches(assets, expected.value);
    }
  }

  /** The specification leaves one answer only. */
  lemma SelectionUnique(releases: seq<Release>, current: Version, channel: ReleaseChannel,
                        nameFor: Version -> Option<string>, a: Result<Option<UpdateCandidate>>,
                        b: Result<Option<UpdateCandidate>>)
    requires Selected(releases, current, channel, nameFor, a) && Selected(releases, current, channel, nameFor, b)
    ensures a == b
  {
    hide AssetSelected;
    if a.Ok? && a.value.Some? && b.value.Some? {
      var j: nat :| Tops(releases, current, channel, nameFor, a.value.value, j);
      var k: nat :| Tops(releases, current, channel, nameFor, b.value.value, k);
      assert Eligible(releases[j], current, channel) && Eligible(releases[k], current, channel);
      OneAnswer(releases[k].assets, nameFor(a.value.value.version), Ok(a.value.value.asset), Ok(b.value.value.asset));
    }
  }

  /** Once the selected release is installed there is nothing left to do: on the same
      index, with the selected version as the current one and the channel it implies, the
      answer is no update, and no error either. */
  lemma SelectionIsFixpoint(releases: seq<Release>, current: Version, channel: ReleaseChannel,
                            nameFor: Version -> Option<string>, candidate: UpdateCandidate,
                            again: Result<Option<UpdateCandidate>>)
    requires Selected(releases, current, channel, nameFor, Ok(Some(candidate)))
    requires Selected(releases, candidate.version, ChannelOf(candidate.version), nameFor, again)
    ensures candidate.version.rank > current.rank
    ensures again == Ok(None)
  {
    hide AssetSelected;
    var k :| Tops(releases, current, channel, nameFor, candidate, k);
    forall i | 0 <= i < |releases|
      ensures !Eligible(releases[i], candidate.version, ChannelOf(candidate.version))
    {
      assert Eligible(releases[i], candidate.version, ChannelOf(candidate.version))
             ==> Eligible(releases[i], current, channel);
    }
    assert forall i :: 0 <= i < |releases| ==> !Faulty(releases[i], current, channel, nameFor);
    assert again.Ok?;
  }
}
