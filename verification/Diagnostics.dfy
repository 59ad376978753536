/** Byte budgets of diagnostic text (crates/overcrow-control/src/diagnostics.rs). Text is
    its UTF-8 bytes. */
module Diagnostics {
  import opened Common
  import opened Bytes

  const MAX_SESSION_TYPE_BYTES := 32
  const MAX_DESKTOP_METADATA_BYTES := 128
  const MAX_CONFIG_PATH_BYTES := 256
  const MAX_DIAGNOSTIC_LABEL_BYTES := 64
  const MAX_DIAGNOSTIC_DETAIL_BYTES := 512
  const MAX_DIAGNOSTIC_COUNT := 999_999_999
  const MAX_DISCOVERY_WARNINGS := 16
  const MAX_WARNING_BYTES := 255
  const MAX_SOURCE_WARNING_AGGREGATE_BYTES := 1024
  const MAX_RENDERED_WARNING_AGGREGATE_BYTES := 1536

  const TRUNCATION_LABEL := Ascii("Diagnostic bounds")
  const TRUNCATION_DETAIL :=
    Ascii("Some diagnostic input was truncated to bounded limits; discarded content is not shown.")

  // --- cutting text -----------------------------------------------------------------

  /** The last character boundary at or before `end`. */
  function CutEnd(s: Text, end: nat): (r: nat)
    requires end <= |s|
    ensures r <= end && Boundary(s, r)
    ensures forall k :: r < k <= end ==> !Boundary(s, k)
  {
    if Boundary(s, end) then end else CutEnd(s, end - 1)
  }

  function Bounded(s: Text, limit: nat): (r: Text)
    ensures |r| <= limit && |r| <= |s| && r == s[..|r|]
    ensures |s| <= limit ==> r == s
  {
    s[..CutEnd(s, Min(limit, |s|))]
  }

  /** A character boundary is never more than three bytes back. */
  lemma {:induction false} BoundaryNear(s: Text, i: nat)
    requires ValidUtf8(s) && i <= |s|
    ensures CutEnd(s, i) + 3 >= i
    decreases |s|
  {
    var n := CharLength(s);
    if i >= n && n > 0 {
      var tail := s[n..];
      BoundaryNear(tail, i - n);
      var k := CutEnd(tail, i - n);
      assert Boundary(s, n + k) by {
        if k == 0 && n < |s| {
          assert CharLength(tail) > 0;
        }
      }
    }
  }

  /** Text cut to a limit is valid text, the longest prefix of whole characters that fits:
      at most three bytes are given away. */
  lemma CutsWholeCharacters(s: Text, limit: nat)
    requires ValidUtf8(s)
    ensures ValidUtf8(Bounded(s, limit)) && ValidUtf8(s[|Bounded(s, limit)|..])
    ensures |s| > limit ==> |Bounded(s, limit)| + 3 >= limit
    ensures forall k :: |Bounded(s, limit)| < k <= limit && k <= |s| ==> !Boundary(s, k)
  {
    var end := CutEnd(s, Min(limit, |s|));
    CutAtBoundary(s, end);
    BoundaryNear(s, Min(limit, |s|));
  }

  method Utf8PrefixEnd(s: Text, limit: nat) returns (end: nat)
    ensures end == |Bounded(s, limit)|
  {
    end := Min(limit, |s|);
    while !Boundary(s, end)
      invariant end <= |s| && CutEnd(s, end) == CutEnd(s, Min(limit, |s|))
      decreases end
    {
      end := end - 1;
    }
  }

  method BoundedText(s: Text, limit: nat) returns (text: Text, cut: bool)
    ensures text == Bounded(s, limit) && cut == (|s| > limit)
  {
    if |s| <= limit {
      return s, false;
    }
    var end := Utf8PrefixEnd(s, limit);
    return s[..end], true;
  }

  method BoundedOwnedText(s: Text, limit: nat) returns (text: Text, cut: bool)
    ensures text == Bounded(s, limit) && cut == (|s| > limit)
  {
    text, cut := s, false;
    if |text| > limit {
      var end := Utf8PrefixEnd(text, limit);
      text := text[..end];
      cut := true;
    }
  }

  // --- source warnings --------------------------------------------------------------

  /** Bytes in a list of texts. */
  function Total(texts: seq<Text>): nat
  {
    if texts == [] then 0 else Total(texts[..|texts| - 1]) + |texts[|texts| - 1]|
  }

  /** Warnings kept so far, the bytes left for more, and whether anything was cut. */
  datatype Budget = Budget(kept: seq<Text>, remaining: nat, truncated: bool)

  function Admit(b: Budget, warning: Text): Budget
  {
    if b.remaining == 0 then b.(truncated := true)
    else
      var limit := Min(MAX_WARNING_BYTES, b.remaining);
      var text := Bounded(warning, limit);
      Budget(b.kept + [text], b.remaining - |text|, b.truncated || |warning| > limit)
  }

  function AdmitAll(b: Budget, warnings: seq<Text>): Budget
  {
    if warnings == [] then b else Admit(AdmitAll(b, warnings[..|warnings| - 1]), warnings[|warnings| - 1])
  }

  datatype Sources = Sources(settings: Option<Text>, discovery: seq<Text>, truncated: bool)

  function WarningSources(settings: Option<Text>, discovery: seq<Text>): Sources
  {
    var start := Budget([], MAX_SOURCE_WARNING_AGGREGATE_BYTES, false);
    var first := if settings.Some? then Admit(start, settings.value) else start;
    var all := AdmitAll(first.(kept := []), discovery[..Min(|discovery|, MAX_DISCOVERY_WARNINGS)]);
    Sources(if first.kept == [] then None else Some(first.kept[0]), all.kept,
            all.truncated || |discovery| > MAX_DISCOVERY_WARNINGS)
  }

  lemma {:induction false} AdmitAllFits(b: Budget, warnings: seq<Text>)
    requires b.kept == []
    ensures var r := AdmitAll(b, warnings); Total(r.kept) + r.remaining == b.remaining && |r.kept| <= |warnings|
    ensures forall text :: text in AdmitAll(b, warnings).kept ==> |text| <= MAX_WARNING_BYTES
  {
    if warnings != [] {
      var front, last := warnings[..|warnings| - 1], warnings[|warnings| - 1];
      AdmitAllFits(b, front);
      var before, after := AdmitAll(b, front), AdmitAll(b, warnings);
      if before.remaining > 0 {
        assert after.kept[..|after.kept| - 1] == before.kept;
      }
    }
  }

  /** What was kept is kept again, whole. */
  lemma {:induction false} AdmitAllAgain(b: Budget, warnings: seq<Text>, truncated: bool)
    requires b.kept == []
    ensures AdmitAll(b.(truncated := truncated), AdmitAll(b, warnings).kept)
            == AdmitAll(b, warnings).(truncated := truncated)
  {
    if warnings != [] {
      var front, last := warnings[..|warnings| - 1], warnings[|warnings| - 1];
      AdmitAllAgain(b, front, truncated);
      var before, after := AdmitAll(b, front), AdmitAll(b, warnings);
      if before.remaining > 0 {
        assert after.kept[..|after.kept| - 1] == before.kept;
      }
    }
  }

  /** Source warnings come to at most 1024 bytes, 16 discovery warnings, 255 bytes each. */
  lemma SourcesFit(settings: Option<Text>, discovery: seq<Text>)
    ensures var r := WarningSources(settings, discovery);
            && (if r.settings.Some? then |r.settings.value| else 0) + Total(r.discovery)
               <= MAX_SOURCE_WARNING_AGGREGATE_BYTES
            && |r.discovery| <= MAX_DISCOVERY_WARNINGS
            && (forall text :: text in r.discovery ==> |text| <= MAX_WARNING_BYTES)
            && r.settings.Some? == settings.Some? && (r.settings.Some? ==> |r.settings.value| <= MAX_WARNING_BYTES)
  {
    var start := Budget([], MAX_SOURCE_WARNING_AGGREGATE_BYTES, false);
    var first := if settings.Some? then Admit(start, settings.value) else start;
    AdmitAllFits(first.(kept := []), discovery[..Min(|discovery|, MAX_DISCOVERY_WARNINGS)]);
  }

  /** A warning is kept as far as the bytes left allow. */
  predicate KeptAt(kept: seq<Text>, warnings: seq<Text>, left: nat, k: nat)
  {
    k < |kept| ==> && k < |warnings| && Total(kept[..k]) < left
                   && kept[k] == Bounded(warnings[k], Min(255, left - Total(kept[..k])))
  }

  lemma AdmitAdds(b: Budget, warning: Text)
    ensures var after := Admit(b, warning);
            if b.remaining == 0 then after.kept == b.kept && after.remaining == 0
            else after.kept == b.kept + [Bounded(warning, Min(255, b.remaining))]
  {
    hide Bounded;
  }

  lemma {:induction false} AdmitAllKeeps(b: Budget, warnings: seq<Text>, k: nat)
    requires b.kept == []
    ensures var r := AdmitAll(b, warnings);
            && |r.kept| <= |warnings| && (|r.kept| < |warnings| ==> r.remaining == 0)
            && KeptAt(r.kept, warnings, b.remaining, k)
  {
    hide Bounded, Admit, Total;
    if warnings != [] {
      var front, last := warnings[..|warnings| - 1], warnings[|warnings| - 1];
      var before, after := AdmitAll(b, front), AdmitAll(b, warnings);
      AdmitAllKeeps(b, front, k);
      AdmitAllFits(b, front);
      AdmitAdds(before, last);
      if k < |before.kept| {
        assert after.kept[..k] == before.kept[..k];
      } else if k < |after.kept| {
        assert after.kept[..k] == before.kept;
      }
    }
  }

  /** Every warning is kept up to the last whole character within 255 bytes and within what
      the ones before it have left of 1024; none of the first 16 is left out while any
      bytes are left. */
  lemma SourcesKeep(settings: Option<Text>, discovery: seq<Text>, k: nat)
    ensures var r := WarningSources(settings, discovery);
            var left := 1024 - if r.settings.Some? then |r.settings.value| else 0;
            && (settings.Some? ==> r.settings == Some(Bounded(settings.value, 255)))
            && |r.discovery| <= |discovery| && left >= 0 && KeptAt(r.discovery, discovery, left, k)
            && (|r.discovery| < Min(|discovery|, 16) ==> Total(r.discovery) == left)
  {
    var start := Budget([], MAX_SOURCE_WARNING_AGGREGATE_BYTES, false);
    var first := if settings.Some? then Admit(start, settings.value) else start;
    var taken := discovery[..Min(|discovery|, MAX_DISCOVERY_WARNINGS)];
    hide Bounded, AdmitAll, Total;
    AdmitAllKeeps(first.(kept := []), taken, k);
    AdmitAllFits(first.(kept := []), taken);
  }

  lemma AdmitReportsCut(b: Budget, front: seq<Text>, last: Text)
    requires |b.kept| <= |front|
    ensures b.kept == front ==> (Admit(b, last).truncated <==> b.truncated || Admit(b, last).kept != front + [last])
    ensures b.kept != front ==> Admit(b, last).kept != front + [last]
    ensures b.truncated ==> Admit(b, last).truncated
  {
    hide Bounded;
    var after := Admit(b, last);
    assert after.kept == front + [last] ==> after.kept[..|front|] == front;
    if b.remaining > 0 {
      assert after.kept[..|b.kept|] == b.kept;
    }
  }

  lemma {:induction false} AdmitAllReportsCuts(b: Budget, warnings: seq<Text>)
    requires b.kept == []
    ensures AdmitAll(b, warnings).truncated <==> b.truncated || AdmitAll(b, warnings).kept != warnings
  {
    hide Admit;
    if warnings != [] {
      var front, last := warnings[..|warnings| - 1], warnings[|warnings| - 1];
      AdmitAllReportsCuts(b, front);
      AdmitAllFits(b, front);
      AdmitReportsCut(AdmitAll(b, front), front, last);
      assert warnings == front + [last];
    }
  }

  /** Truncation is reported exactly if the warnings come out changed. */
  lemma SourcesReportCuts(settings: Option<Text>, discovery: seq<Text>)
    ensures var r := WarningSources(settings, discovery);
            r.truncated <==> r.settings != settings || r.discovery != discovery
  {
    var start := Budget([], MAX_SOURCE_WARNING_AGGREGATE_BYTES, false);
    var first := if settings.Some? then Admit(start, settings.value) else start;
    var taken := discovery[..Min(|discovery|, MAX_DISCOVERY_WARNINGS)];
    AdmitAllReportsCuts(first.(kept := []), taken);
    AdmitAllFits(first.(kept := []), taken);
    assert |discovery| <= MAX_DISCOVERY_WARNINGS ==> taken == discovery;
  }

  /** Bounding bounded sources changes nothing and cuts nothing. */
  lemma SourcesIdempotent(settings: Option<Text>, discovery: seq<Text>)
    ensures var r := WarningSources(settings, discovery);
            WarningSources(r.settings, r.discovery) == r.(truncated := false)
  {
    var r := WarningSources(settings, discovery);
    var start := Budget([], MAX_SOURCE_WARNING_AGGREGATE_BYTES, false);
    var first := if settings.Some? then Admit(start, settings.value) else start;
    SourcesFit(settings, discovery);
    var again := if r.settings.Some? then Admit(start, r.settings.value) else start;
    assert again == first.(truncated := false);
    AdmitAllAgain(first.(kept := []), discovery[..Min(|discovery|, MAX_DISCOVERY_WARNINGS)], false);
    assert r.discovery[..Min(|r.discovery|, MAX_DISCOVERY_WARNINGS)] == r.discovery;
  }

  method BoundedWarning(warning: Text, remaining: nat, truncated: bool)
    returns (text: Option<Text>, left: nat, cut: bool)
    ensures Admit(Budget([], remaining, truncated), warning)
            == Budget(if text.Some? then [text.value] else [], left, cut)
  {
    if remaining == 0 {
      return None, 0, true;
    }
    var bounded, wasCut := BoundedText(warning, Min(MAX_WARNING_BYTES, remaining));
    return Some(bounded), remaining - |bounded|, truncated || wasCut;
  }

  method BoundedOwnedWarning(warning: Text, remaining: nat, truncated: bool)
    returns (text: Option<Text>, left: nat, cut: bool)
    ensures Admit(Budget([], remaining, truncated), warning)
            == Budget(if text.Some? then [text.value] else [], left, cut)
  {
    if remaining == 0 {
      return None, 0, true;
    }
    var bounded, wasCut := BoundedOwnedText(warning, Min(MAX_WARNING_BYTES, remaining));
    return Some(bounded), remaining - |bounded|, truncated || wasCut;
  }

  lemma AdmitAnywhere(kept: seq<Text>, remaining: nat, truncated: bool, warning: Text)
    ensures var here := Admit(Budget([], remaining, truncated), warning);
            Admit(Budget(kept, remaining, truncated), warning) == here.(kept := kept + here.kept)
  {
  }

  method BoundedWarningSources(settings: Option<Text>, discovery: seq<Text>) returns (r: Sources)
    ensures r == WarningSources(settings, discovery)
  {
    hide Admit;
    var remaining: nat, truncated := MAX_SOURCE_WARNING_AGGREGATE_BYTES, false;
    var first: Option<Text> := None;
    if settings.Some? {
      first, remaining, truncated := BoundedWarning(settings.value, remaining, truncated);
    }
    ghost var start := Budget([], remaining, truncated);
    var kept: seq<Text> := [];
    var i := 0;
    while i < |discovery| && i < MAX_DISCOVERY_WARNINGS
      invariant 0 <= i <= |discovery| && i <= MAX_DISCOVERY_WARNINGS
      invariant Budget(kept, remaining, truncated) == AdmitAll(start, discovery[..i])
    {
      AdmitAnywhere(kept, remaining, truncated, discovery[i]);
      var text;
      text, remaining, truncated := BoundedWarning(discovery[i], remaining, truncated);
      if text.Some? {
        kept := kept + [text.value];
      }
      assert discovery[..i + 1][..i] == discovery[..i];
      i := i + 1;
    }
    if i < |discovery| {
      truncated := true;
    }
    r := Sources(first, kept, truncated);
  }

  method BoundedOwnedWarningSources(settings: Option<Text>, discovery: seq<Text>) returns (r: Sources)
    ensures r == WarningSources(settings, discovery)
  {
    hide Admit;
    var remaining: nat, truncated := MAX_SOURCE_WARNING_AGGREGATE_BYTES, false;
    var first: Option<Text> := None;
    if settings.Some? {
      first, remaining, truncated := BoundedOwnedWarning(settings.value, remaining, truncated);
    }
    ghost var start := Budget([], remaining, truncated);
    var kept: seq<Text> := [];
    var i := 0;
    while i < |discovery| && i < MAX_DISCOVERY_WARNINGS
      invariant 0 <= i <= |discovery| && i <= MAX_DISCOVERY_WARNINGS
      invariant Budget(kept, remaining, truncated) == AdmitAll(start, discovery[..i])
    {
      AdmitAnywhere(kept, remaining, truncated, discovery[i]);
      var text;
      text, remaining, truncated := BoundedOwnedWarning(discovery[i], remaining, truncated);
      if text.Some? {
        kept := kept + [text.value];
      }
      assert discovery[..i + 1][..i] == discovery[..i];
      i := i + 1;
    }
    if i < |discovery| {
      truncated := true;
    }
    r := Sources(first, kept, truncated);
  }

  // --- the input --------------------------------------------------------------------

  datatype Input = Input(
    sessionType: Option<Text>, currentDesktop: Option<Text>, desktopSession: Option<Text>,
    home: Option<Text>, configHome: Option<Text>, settingsWarning: Option<Text>, discoveryWarnings: seq<Text>,
    discoveredSteam: nat, selectedSteam: nat, selectedManual: nat, environmentTruncated: bool, modelTruncated: bool)

  function BoundedOption(s: Option<Text>, limit: nat): Option<Text>
  {
    if s.Some? then Some(Bounded(s.value, limit)) else None
  }

  predicate TooLong(s: Option<Text>, limit: nat) { s.Some? && |s.value| > limit }

  predicate UnusablePath(path: Option<Text>)
  {
    path.Some? && (|path.value| > MAX_CONFIG_PATH_BYTES || !ValidUtf8(path.value))
  }

  function UsablePath(path: Option<Text>): Option<Text> { if UnusablePath(path) then None else path }

  function EnvironmentBounded(x: Input): Input
  {
    x.(sessionType := BoundedOption(x.sessionType, MAX_SESSION_TYPE_BYTES),
       currentDesktop := BoundedOption(x.currentDesktop, MAX_DESKTOP_METADATA_BYTES),
       desktopSession := BoundedOption(x.desktopSession, MAX_DESKTOP_METADATA_BYTES),
       home := UsablePath(x.home), configHome := UsablePath(x.configHome),
       environmentTruncated := x.environmentTruncated || TooLong(x.sessionType, MAX_SESSION_TYPE_BYTES)
         || TooLong(x.currentDesktop, MAX_DESKTOP_METADATA_BYTES)
         || TooLong(x.desktopSession, MAX_DESKTOP_METADATA_BYTES)
         || UnusablePath(x.home) || UnusablePath(x.configHome))
  }

  function ModelBounded(x: Input): Input
  {
    var sources := WarningSources(x.settingsWarning, x.discoveryWarnings);
    var counted := || x.discoveredSteam > MAX_DIAGNOSTIC_COUNT || x.selectedSteam > MAX_DIAGNOSTIC_COUNT
                   || x.selectedManual > MAX_DIAGNOSTIC_COUNT;
    x.(settingsWarning := sources.settings, discoveryWarnings := sources.discovery,
       discoveredSteam := Min(x.discoveredSteam, MAX_DIAGNOSTIC_COUNT),
       selectedSteam := Min(x.selectedSteam, MAX_DIAGNOSTIC_COUNT),
       selectedManual := Min(x.selectedManual, MAX_DIAGNOSTIC_COUNT),
       modelTruncated := x.modelTruncated || sources.truncated || counted)
  }

  function Normalized(x: Input): Input { ModelBounded(EnvironmentBounded(x)) }

  predicate SameEnvironment(x: Input, y: Input)
  {
    && x.sessionType == y.sessionType && x.currentDesktop == y.currentDesktop && x.desktopSession == y.desktopSession
    && x.home == y.home && x.configHome == y.configHome
  }

  predicate SameModel(x: Input, y: Input)
  {
    && x.settingsWarning == y.settingsWarning && x.discoveryWarnings == y.discoveryWarnings
    && x.discoveredSteam == y.discoveredSteam && x.selectedSteam == y.selectedSteam
    && x.selectedManual == y.selectedManual
  }

  predicate Within(s: Option<Text>, limit: nat) { s.Some? ==> |s.value| <= limit }

  /** A normalised input is within every limit, and each flag is raised exactly if it was
      before or something of its part came out changed. */
  lemma NormalizationBounds(x: Input)
    ensures var r := Normalized(x);
            && Within(r.sessionType, MAX_SESSION_TYPE_BYTES) && Within(r.currentDesktop, MAX_DESKTOP_METADATA_BYTES)
            && Within(r.desktopSession, MAX_DESKTOP_METADATA_BYTES) && Within(r.home, MAX_CONFIG_PATH_BYTES)
            && Within(r.configHome, MAX_CONFIG_PATH_BYTES) && Within(r.settingsWarning, MAX_WARNING_BYTES)
            && r.discoveredSteam <= MAX_DIAGNOSTIC_COUNT && r.selectedSteam <= MAX_DIAGNOSTIC_COUNT
            && r.selectedManual <= MAX_DIAGNOSTIC_COUNT
            && (r.environmentTruncated <==> x.environmentTruncated || !SameEnvironment(x, r))
            && (r.modelTruncated <==> x.modelTruncated || !SameModel(x, r))
  {
    SourcesReportCuts(x.settingsWarning, x.discoveryWarnings);
    SourcesFit(x.settingsWarning, x.discoveryWarnings);
    hide WarningSources, Bounded;
  }

  /** `r` is `s` up to the last whole character within the limit. */
  predicate CutTo(s: Option<Text>, limit: nat, r: Option<Text>)
  {
    && r.Some? == s.Some?
    && (s.Some? ==> && r.value <= s.value && |r.value| <= limit && Boundary(s.value, |r.value|)
                    && forall k :: |r.value| < k <= limit && k <= |s.value| ==> !Boundary(s.value, k))
  }

  function PathOrNone(path: Option<Text>): Option<Text>
  {
    if path.Some? && |path.value| <= 256 && ValidUtf8(path.value) then path else None
  }

  lemma BoundedCuts(s: Option<Text>, limit: nat)
    ensures CutTo(s, limit, BoundedOption(s, limit))
  {
  }

  /** Texts are only cut where they have to be, paths are dropped exactly if they are too long
      or no text, and counts stop at 999999999. */
  lemma NormalizationKeeps(x: Input)
    ensures var r := Normalized(x);
            && CutTo(x.sessionType, 32, r.sessionType) && CutTo(x.currentDesktop, 128, r.currentDesktop)
            && CutTo(x.desktopSession, 128, r.desktopSession) && CutTo(x.settingsWarning, 255, r.settingsWarning)
    ensures var r := Normalized(x);
            r.home == PathOrNone(x.home) && r.configHome == PathOrNone(x.configHome)
    ensures var r := Normalized(x);
            && r.discoveredSteam == Min(x.discoveredSteam, 999_999_999)
            && r.selectedSteam == Min(x.selectedSteam, 999_999_999)
            && r.selectedManual == Min(x.selectedManual, 999_999_999)
  {
    SourcesKeep(x.settingsWarning, x.discoveryWarnings, 0);
    SourcesFit(x.settingsWarning, x.discoveryWarnings);
    hide WarningSources, ValidUtf8, Bounded, CutTo;
    BoundedCuts(x.sessionType, 32);
    BoundedCuts(x.currentDesktop, 128);
    BoundedCuts(x.desktopSession, 128);
    BoundedCuts(x.settingsWarning, 255);
  }

  lemma NormalizationIdempotent(x: Input)
    ensures Normalized(Normalized(x)) == Normalized(x)
  {
    hide WarningSources;
    SourcesIdempotent(x.settingsWarning, x.discoveryWarnings);
    hide Bounded;
  }

  method NormalizedConfigPath(path: Option<Text>, truncated: bool) returns (r: Option<Text>, cut: bool)
    ensures r == UsablePath(path) && cut == (truncated || UnusablePath(path))
  {
    r, cut := path, truncated;
    if path.Some? && (|path.value| > MAX_CONFIG_PATH_BYTES || !ValidUtf8(path.value)) {
      r, cut := None, true;
    }
  }

  method BoundedField(field: Option<Text>, limit: nat, truncated: bool) returns (r: Option<Text>, cut: bool)
    ensures r == BoundedOption(field, limit) && cut == (truncated || TooLong(field, limit))
  {
    r, cut := field, truncated;
    if field.Some? {
      var text, wasCut := BoundedOwnedText(field.value, limit);
      r, cut := Some(text), truncated || wasCut;
    }
  }

  method Normalize(x: Input) returns (r: Input)
    ensures r == Normalized(x)
  {
    hide Bounded, WarningSources;
    var truncated := x.environmentTruncated;
    var sessionType, currentDesktop, desktopSession, home, configHome;
    sessionType, truncated := BoundedField(x.sessionType, MAX_SESSION_TYPE_BYTES, truncated);
    currentDesktop, truncated := BoundedField(x.currentDesktop, MAX_DESKTOP_METADATA_BYTES, truncated);
    desktopSession, truncated := BoundedField(x.desktopSession, MAX_DESKTOP_METADATA_BYTES, truncated);
    home, truncated := NormalizedConfigPath(x.home, truncated);
    configHome, truncated := NormalizedConfigPath(x.configHome, truncated);
    r := x.(sessionType := sessionType, currentDesktop := currentDesktop, desktopSession := desktopSession,
            home := home, configHome := configHome, environmentTruncated := truncated);
    var sources := BoundedOwnedWarningSources(x.settingsWarning, x.discoveryWarnings);
    var counted := || x.discoveredSteam > MAX_DIAGNOSTIC_COUNT || x.selectedSteam > MAX_DIAGNOSTIC_COUNT
                   || x.selectedManual > MAX_DIAGNOSTIC_COUNT;
    r := r.(settingsWarning := sources.settings, discoveryWarnings := sources.discovery,
            discoveredSteam := Min(x.discoveredSteam, MAX_DIAGNOSTIC_COUNT),
            selectedSteam := Min(x.selectedSteam, MAX_DIAGNOSTIC_COUNT),
            selectedManual := Min(x.selectedManual, MAX_DIAGNOSTIC_COUNT),
            modelTruncated := x.modelTruncated || sources.truncated || counted);
  }

  /** What diagnostics take from the control model. */
  datatype Model = Model(settingsWarning: Option<Text>, discoveryWarnings: seq<Text>, games: nat, steamIds: nat,
                         manualGames: nat)

  function WithModel(x: Input, m: Model): Input
  {
    x.(settingsWarning := m.settingsWarning, discoveryWarnings := m.discoveryWarnings, discoveredSteam := m.games,
       selectedSteam := m.steamIds, selectedManual := m.manualGames)
  }

  /** Taking over borrowed warnings comes to the same as bounding owned ones. */
  method SyncModel(x: Input, m: Model) returns (r: Input)
    ensures r == ModelBounded(WithModel(x, m))
  {
    hide WarningSources;
    var sources := BoundedWarningSources(m.settingsWarning, m.discoveryWarnings);
    var counted := || m.games > MAX_DIAGNOSTIC_COUNT || m.steamIds > MAX_DIAGNOSTIC_COUNT
                   || m.manualGames > MAX_DIAGNOSTIC_COUNT;
    r := x.(settingsWarning := sources.settings, discoveryWarnings := sources.discovery,
            modelTruncated := x.modelTruncated || sources.truncated || counted,
            discoveredSteam := Min(m.games, MAX_DIAGNOSTIC_COUNT),
            selectedSteam := Min(m.steamIds, MAX_DIAGNOSTIC_COUNT),
            selectedManual := Min(m.manualGames, MAX_DIAGNOSTIC_COUNT));
  }

  /** An input stays normalised when the model is taken over. */
  lemma SyncKeepsNormal(x: Input, m: Model)
    requires Normalized(x) == x
    ensures var synced := ModelBounded(WithModel(x, m)); Normalized(synced) == synced
  {
    hide WarningSources;
    SourcesIdempotent(m.settingsWarning, m.discoveryWarnings);
    hide Bounded;
  }

  // --- rendered items ---------------------------------------------------------------

  datatype Level = Okay | Info | Warning | Error

  datatype Item = Item(heading: Text, detail: Text, level: Level)

  const NOTICE := Item(TRUNCATION_LABEL, TRUNCATION_DETAIL, Warning)

  /** Items bounded so far, the bytes left for warnings, and whether anything was cut. */
  datatype Rendering = Rendering(items: seq<Item>, left: nat, truncated: bool)

  function DetailLimit(item: Item, left: nat): nat
  {
    if item.level.Warning? then Min(MAX_DIAGNOSTIC_DETAIL_BYTES, left) else MAX_DIAGNOSTIC_DETAIL_BYTES
  }

  function Render(r: Rendering, item: Item): Rendering
  {
    var limit := DetailLimit(item, r.left);
    var bounded := item.(heading := Bounded(item.heading, MAX_DIAGNOSTIC_LABEL_BYTES),
                         detail := Bounded(item.detail, limit));
    Rendering(r.items + [bounded], if item.level.Warning? then r.left - |bounded.detail| else r.left,
              r.truncated || |item.heading| > MAX_DIAGNOSTIC_LABEL_BYTES || |item.detail| > limit)
  }

  function RenderAll(items: seq<Item>, left: nat, truncated: bool): Rendering
  {
    if items == [] then Rendering([], left, truncated)
    else Render(RenderAll(items[..|items| - 1], left, truncated), items[|items| - 1])
  }

  /** What the notice leaves for the other warnings. */
  function Available(): nat { MAX_RENDERED_WARNING_AGGREGATE_BYTES - |TRUNCATION_DETAIL| }

  function Finalized(items: seq<Item>, truncated: bool): seq<Item>
  {
    var r := RenderAll(items, Available(), truncated);
    if r.truncated then r.items + [NOTICE] else r.items
  }

  function WarningBytes(items: seq<Item>): nat
  {
    if items == [] then 0
    else
      var last := items[|items| - 1];
      WarningBytes(items[..|items| - 1]) + if last.level.Warning? then |last.detail| else 0
  }

  predicate Small(item: Item)
  {
    |item.heading| <= MAX_DIAGNOSTIC_LABEL_BYTES && |item.detail| <= MAX_DIAGNOSTIC_DETAIL_BYTES
  }

  lemma {:induction false} RenderAllFits(items: seq<Item>, left: nat, truncated: bool)
    ensures var r := RenderAll(items, left, truncated);
            && |r.items| == |items| && WarningBytes(r.items) + r.left == left
            && forall item :: item in r.items ==> Small(item)
  {
    hide Bounded;
    if items != [] {
      var front := items[..|items| - 1];
      RenderAllFits(front, left, truncated);
      assert RenderAll(items, left, truncated).items[..|front|] == RenderAll(front, left, truncated).items;
    }
  }

  lemma RenderCuts(r: Rendering, item: Item)
    ensures var after := Render(r, item);
            && |after.items| == |r.items| + 1 && after.items[..|r.items|] == r.items
            && (after.truncated <==> r.truncated || after.items[|r.items|] != item)
            && (after.items[|r.items|] == item <==> Small(item) && (item.level.Warning? ==> |item.detail| <= r.left))
  {
    hide Bounded;
  }

  lemma {:induction false} TruncatedMeansChanged(items: seq<Item>, left: nat, truncated: bool)
    ensures var r := RenderAll(items, left, truncated); r.truncated <==> truncated || r.items != items
  {
    hide Render;
    if items != [] {
      var front, last := items[..|items| - 1], items[|items| - 1];
      TruncatedMeansChanged(front, left, truncated);
      RenderAllFits(front, left, truncated);
      var before := RenderAll(front, left, truncated);
      var after := Render(before, last);
      RenderCuts(before, last);
      assert after.items == before.items + [after.items[|front|]] && items == front + [last];
    }
  }

  /** Items that need no cut: each within its limits, and the warnings within theirs. */
  predicate Fit(items: seq<Item>, left: nat)
  {
    (forall item :: item in items ==> Small(item)) && WarningBytes(items) <= left
  }

  lemma FitLast(items: seq<Item>, left: nat)
    ensures items == [] ==> Fit(items, left)
    ensures items != [] ==>
              var front, last := items[..|items| - 1], items[|items| - 1];
              Fit(items, left)
              <==> && Fit(front, left) && Small(last)
                   && (last.level.Warning? ==> |last.detail| <= left - WarningBytes(front))
  {
    if items != [] {
      assert items == items[..|items| - 1] + [items[|items| - 1]];
    }
  }

  /** Nothing is cut exactly if nothing needs to be. */
  lemma {:induction false} UncutExactlyWhenFit(items: seq<Item>, left: nat, truncated: bool)
    ensures RenderAll(items, left, truncated).items == items <==> Fit(items, left)
  {
    hide Render, Fit, Small;
    FitLast(items, left);
    if items != [] {
      var front, last := items[..|items| - 1], items[|items| - 1];
      var before := RenderAll(front, left, truncated);
      UncutExactlyWhenFit(front, left, truncated);
      RenderAllFits(front, left, truncated);
      RenderCuts(before, last);
      var after := Render(before, last).items;
      assert items == front + [last] && after == before.items + [after[|front|]];
    }
  }

  /** Every item is kept, its texts up to the last whole character within their limits; a
      warning's also within what the warnings before it have left. */
  lemma {:induction false} RenderedKeeps(items: seq<Item>, left: nat, truncated: bool, k: nat)
    requires k < |items|
    ensures var r := RenderAll(items, left, truncated).items;
            && |r| == |items| && WarningBytes(r[..k]) <= left
            && r[k] == Item(Bounded(items[k].heading, 64),
                            Bounded(items[k].detail,
                                    if items[k].level.Warning? then Min(512, left - WarningBytes(r[..k])) else 512),
                            items[k].level)
  {
    hide Bounded;
    var front := items[..|items| - 1];
    RenderAllFits(front, left, truncated);
    var before, after := RenderAll(front, left, truncated).items, RenderAll(items, left, truncated).items;
    if k < |front| {
      RenderedKeeps(front, left, truncated, k);
      assert after[..k] == before[..k];
    } else {
      assert after[..k] == before;
    }
  }

  /** Rendered warnings, the truncation notice included, come to at most 1536 bytes, and
      every item is within its limits. The items are untouched if nothing was cut before
      and each fits, warnings also together; in every other case the notice ends them. */
  lemma RenderedFits(items: seq<Item>, truncated: bool)
    ensures WarningBytes(Finalized(items, truncated)) <= MAX_RENDERED_WARNING_AGGREGATE_BYTES
    ensures forall item :: item in Finalized(items, truncated) ==> Small(item)
    ensures if !truncated && Fit(items, Available()) then Finalized(items, truncated) == items
            else |Finalized(items, truncated)| == |items| + 1 && Finalized(items, truncated)[|items|] == NOTICE
  {
    RenderAllFits(items, Available(), truncated);
    TruncatedMeansChanged(items, Available(), truncated);
    UncutExactlyWhenFit(items, Available(), truncated);
    hide RenderAll, Fit;
    var r := RenderAll(items, Available(), truncated);
    assert (r.items + [NOTICE])[..|r.items|] == r.items;
  }

  method BoundItem(item: Item, left: nat, truncated: bool) returns (bounded: Item, rest: nat, cut: bool)
    ensures Render(Rendering([], left, truncated), item) == Rendering([bounded], rest, cut)
  {
    hide Bounded;
    var heading, headingCut := BoundedText(item.heading, MAX_DIAGNOSTIC_LABEL_BYTES);
    var detail, detailCut := BoundedText(item.detail, DetailLimit(item, left));
    bounded, rest, cut := item.(heading := heading, detail := detail), left, truncated || headingCut || detailCut;
    if bounded.level.Warning? {
      rest := rest - |bounded.detail|;
    }
  }

  lemma RenderAnywhere(items: seq<Item>, left: nat, truncated: bool, item: Item)
    ensures var here := Render(Rendering([], left, truncated), item);
            Render(Rendering(items, left, truncated), item) == here.(items := items + here.items)
  {
  }

  method FinalizeItems(items: seq<Item>, truncated: bool) returns (r: seq<Item>)
    ensures r == Finalized(items, truncated)
  {
    hide Render;
    var left: nat, cut := Available(), truncated;
    r := items;
    var i := 0;
    while i < |items|
      invariant 0 <= i <= |items| == |r| && r[i..] == items[i..]
      invariant Rendering(r[..i], left, cut) == RenderAll(items[..i], Available(), truncated)
    {
      assert r[i] == items[i] && items[..i + 1][..i] == items[..i];
      RenderAnywhere(r[..i], left, cut, items[i]);
      var bounded;
      bounded, left, cut := BoundItem(r[i], left, cut);
      ghost var done := r[..i];
      r := r[i := bounded];
      assert r[..i + 1] == done + [bounded];
      i := i + 1;
    }
    assert items[..i] == items && r[..i] == r;
    if cut {
      r := r + [NOTICE];
    }
  }
}
