/**
 * RunAutoUpdateCheck: fetch the LATEST manifest, compare revision tags,
 * fetch the release's architecture list, look for this platform, fetch the
 * payload and install it. The HTTP responses are inputs (None for a failed
 * request or read); the decompressed payload is opaque bytes.
 */
module AutoUpdate {
  import opened Wrappers
  import opened GoStrings
  import opened Version
  import opened Installer

  /** runtime.GOOS and runtime.GOARCH. */
  datatype Platform = Platform(goos: string, goarch: string)

  /** The platform identifier looked up in the architecture list: GOOS + "_" + GOARCH. */
  function Myself(p: Platform): string { p.goos + "_" + p.goarch }

  /** The three fields of the LATEST manifest: build stamp, revision tag, release prefix. */
  datatype Manifest = Manifest(date: string, gitTag: string, prefix: string)

  /**
   * What each request of a check yields. For the manifest and the
   * architecture list, None is a failed http.Get or a failed read of the
   * body. For the payload, None is only a failed http.Get: its body is read
   * and decompressed while io.Copy writes `.name.new`, so a read or bzip2
   * error there is the install's CopyFails.
   */
  datatype Responses = Responses(latest: Option<string>, archList: Option<string>, payload: Option<Bytes>)

  /** The branch a check ends in: one per log line of RunAutoUpdateCheck. */
  datatype Outcome = NotConfigured | FetchError | ParseError | UpToDate | NoArch | InstallError | Installed
  {
    predicate ReachedInstall() { this == InstallError || this == Installed }
  }

  /** How a check ends and the URLs it requested, in order. */
  datatype Report = Report(outcome: Outcome, requested: seq<string>)

  /** The PROJECT_NAME of a build that was never configured. */
  const Unconfigured := "unconfigured"

  function LatestUrl(b: Build): string { b.host + b.projectName + "/LATEST" }

  function ArchUrl(b: Build, prefix: string): string { b.host + b.projectName + "/" + prefix + ".arch" }

  function PayloadUrl(b: Build, prefix: string, p: Platform): string
  {
    b.host + b.projectName + "/" + prefix + "/" + b.projectName + "_" + Myself(p) + ".bz2"
  }

  // ---------------------------------------------------------------------
  // The manifest and the architecture list

  /**
   * strings.SplitN(strings.TrimSpace(body), " ", 3), accepted only with three
   * fields. ParseManifestIsSplitN shows this is the SplitN call;
   * ParseManifestSucceeds says when it succeeds and what the fields are.
   */
  function ParseManifest(body: string): Option<Manifest>
  {
    ParseFields(TrimSpace(body))
  }

  /** The trimmed text cut at its first single space, and the rest cut again at its first single space. */
  function ParseFields(t: string): Option<Manifest>
  {
    match Cut(t)
    case None => None
    case Some((date, rest)) =>
      match Cut(rest)
      case None => None
      case Some((tag, prefix)) => Some(Manifest(date, tag, prefix))
  }

  /** Cutting twice is the three-field SplitN of the text. */
  lemma ParseFieldsIsSplitN(t: string)
    ensures var info := SplitN(t, 3);
      ParseFields(t) == if |info| != 3 then None else Some(Manifest(info[0], info[1], info[2]))
  {
    CutSplits(t);
    if Cut(t).Some? {
      CutSplits(Cut(t).value.1);
    }
  }

  /** ParseManifest is the three-field SplitN of the trimmed body. */
  lemma ParseManifestIsSplitN(body: string)
    ensures var info := SplitN(TrimSpace(body), 3);
      ParseManifest(body) == if |info| != 3 then None else Some(Manifest(info[0], info[1], info[2]))
  {
    ParseFieldsIsSplitN(TrimSpace(body));
  }

  /** Cutting twice succeeds exactly when the text has two spaces, and the fields rebuild it. */
  lemma ParseFieldsSucceeds(t: string)
    ensures ParseFields(t).Some? <==> Count(t, ' ') >= 2
    ensures ParseFields(t).Some? ==>
      var m := ParseFields(t).value;
      ' ' !in m.date && ' ' !in m.gitTag && m.date + " " + m.gitTag + " " + m.prefix == t
  {
    CutSplits(t);
    CountZero(t, ' ');
    if Cut(t).Some? {
      var rest := Cut(t).value.1;
      CutSplits(rest);
      CountZero(rest, ' ');
    }
  }

  /**
   * The parse succeeds exactly when the trimmed body has at least two single
   * spaces; the first two fields hold no space, the third keeps every later
   * one, and the three joined by spaces are the trimmed body.
   */
  lemma ParseManifestSucceeds(body: string)
    ensures ParseManifest(body).Some? <==> Count(TrimSpace(body), ' ') >= 2
    ensures ParseManifest(body).Some? ==>
      var m := ParseManifest(body).value;
      && ' ' !in m.date && ' ' !in m.gitTag
      && m.date + " " + m.gitTag + " " + m.prefix == TrimSpace(body)
  {
    ParseFieldsSucceeds(TrimSpace(body));
  }

  /**
   * The parse is the only reading of a manifest: any body whose trimmed form
   * is `date tag rest`, with no space in `date` or `tag`, parses to exactly
   * those fields, whatever spaces `rest` holds.
   */
  lemma ParseManifestFields(body: string, date: string, tag: string, rest: string)
    requires ' ' !in date && ' ' !in tag
    requires date + " " + tag + " " + rest == TrimSpace(body)
    ensures ParseManifest(body) == Some(Manifest(date, tag, rest))
  {
    assert TrimSpace(body) == date + " " + (tag + " " + rest);
    CutAt(date, tag + " " + rest);
    CutAt(tag, rest);
  }

  /** The tokens of the architecture list: strings.Split(strings.TrimSpace(body), " "). */
  function ArchTokens(body: string): seq<string> { Split(TrimSpace(body)) }

  /**
   * The `found` loop over the tokens of the architecture list: it stops at
   * the first token equal to `myself`.
   */
  method FindArch(tokens: seq<string>, myself: string) returns (found: bool)
    ensures found <==> myself in tokens
  {
    found := false;
    var i := 0;
    while i < |tokens|
      invariant 0 <= i <= |tokens|
      invariant !found
      invariant myself !in tokens[..i]
    {
      if tokens[i] == myself {
        found := true;
        break;
      }
      i := i + 1;
    }
    assert found || tokens[..i] == tokens;
  }

  /**
   * A list written as the platform identifiers separated by single spaces,
   * each non-empty and without white space, is found to hold exactly those
   * identifiers.
   */
  lemma ArchListMembership(platforms: seq<string>, myself: string)
    requires |platforms| >= 1
    requires forall i | 0 <= i < |platforms| :: platforms[i] != []
    requires forall i, j | 0 <= i < |platforms| && 0 <= j < |platforms[i]| :: !IsSpace(platforms[i][j])
    ensures myself in ArchTokens(Join(platforms)) <==> myself in platforms
  {
    forall i | 0 <= i < |platforms| ensures ' ' !in platforms[i] {
      assert forall j | 0 <= j < |platforms[i]| :: platforms[i][j] != ' ';
    }
    JoinEnds(platforms);
    TrimSpaceOfTrimmed(Join(platforms));
    SplitOfJoin(platforms);
  }

  /**
   * The list is split on single spaces only: two identifiers separated by a
   * newline form one token, so neither of them is found.
   */
  lemma NewlineSeparatedListIsOneToken(a: string, b: string)
    requires a != [] && b != []
    requires forall i | 0 <= i < |a| :: !IsSpace(a[i])
    requires forall i | 0 <= i < |b| :: !IsSpace(b[i])
    ensures ArchTokens(a + "\n" + b) == [a + "\n" + b]
    ensures a !in ArchTokens(a + "\n" + b) && b !in ArchTokens(a + "\n" + b)
  {
    var body := a + "\n" + b;
    assert body[0] == a[0] && body[|body| - 1] == b[|b| - 1];
    TrimSpaceOfTrimmed(body);
    forall i | 0 <= i < |body|
      ensures body[i] != ' '
    {
      if i < |a| {
        assert body[i] == a[i];
      } else if i > |a| {
        assert body[i] == b[i - |a| - 1];
      }
    }
    CutSplits(body);
  }

  /** Join of non-empty pieces begins with the first piece's first character and ends with the last piece's last one. */
  lemma {:induction false} JoinEnds(parts: seq<string>)
    requires |parts| >= 1
    requires forall i | 0 <= i < |parts| :: parts[i] != []
    ensures |Join(parts)| > 0
    ensures Join(parts)[0] == parts[0][0]
    ensures Join(parts)[|Join(parts)| - 1] == parts[|parts| - 1][|parts[|parts| - 1]| - 1]
  {
    if |parts| > 1 {
      JoinEnds(parts[1..]);
    }
  }

  // ---------------------------------------------------------------------
  // The decision chain

  /**
   * How a check ends, given the build, the platform, the responses and
   * whether installUpdate returns nil; and which URLs it requests.
   */
  function AutoUpdateCheck(b: Build, p: Platform, resp: Responses, installed: bool): Report
  {
    if b.projectName == Unconfigured then Report(NotConfigured, [])
    else
      var u1 := LatestUrl(b);
      match resp.latest
      case None => Report(FetchError, [u1])
      case Some(body) =>
        match ParseManifest(body)
        case None => Report(ParseError, [u1])
        case Some(m) =>
          if m.gitTag == b.gitTag then Report(UpToDate, [u1])
          else
            var u2 := ArchUrl(b, m.prefix);
            match resp.archList
            case None => Report(FetchError, [u1, u2])
            case Some(archBody) =>
              if Myself(p) !in ArchTokens(archBody) then Report(NoArch, [u1, u2])
              else
                var u3 := PayloadUrl(b, m.prefix, p);
                if resp.payload.None? then Report(FetchError, [u1, u2, u3])
                else if installed then Report(Installed, [u1, u2, u3])
                else Report(InstallError, [u1, u2, u3])
  }

  /**
   * RunAutoUpdateCheck with the HTTP responses given and installUpdate run
   * on `fs`. Returns true only when the update was installed (where the
   * program would restart), together with the branch taken and the URLs
   * requested. The file system is touched only when installUpdate runs.
   */
  method RunAutoUpdateCheck(fs: FileSystem, b: Build, p: Platform, dir: string, name: string, resp: Responses, f: Faults)
    returns (upgraded: bool, outcome: Outcome, requested: seq<string>)
    requires fs.Valid()
    modifies fs
    ensures fs.Valid()
    ensures Report(outcome, requested) == AutoUpdateCheck(b, p, resp, InstallSucceeds(old(fs.files), dir, name, f))
    ensures upgraded <==> outcome == Installed
    ensures if outcome.ReachedInstall()
      then resp.payload.Some? && fs.history == old(fs.history) + Install(old(fs.files), dir, name, resp.payload.value, f).trace
      else fs.files == old(fs.files) && fs.history == old(fs.history)
  {
    requested := [];
    if b.projectName == Unconfigured {
      return false, NotConfigured, requested;
    }
    requested := requested + [LatestUrl(b)];
    if resp.latest.None? {
      return false, FetchError, requested;
    }
    var info := SplitN(TrimSpace(resp.latest.value), 3);
    ParseManifestIsSplitN(resp.latest.value);
    if |info| != 3 {
      return false, ParseError, requested;
    }
    if info[1] == b.gitTag {
      return false, UpToDate, requested;
    }
    var prefix := info[2];
    requested := requested + [ArchUrl(b, prefix)];
    if resp.archList.None? {
      return false, FetchError, requested;
    }
    var found := FindArch(Split(TrimSpace(resp.archList.value)), Myself(p));
    if !found {
      return false, NoArch, requested;
    }
    requested := requested + [PayloadUrl(b, prefix, p)];
    if resp.payload.None? {
      return false, FetchError, requested;
    }
    var err := InstallUpdate(fs, dir, name, resp.payload.value, f);
    InstallErrorIff(old(fs.files), dir, name, resp.payload.value, f);
    if err.Some? {
      return false, InstallError, requested;
    }
    return true, Installed, requested;
  }

  // ---------------------------------------------------------------------
  // Properties of the decision chain

  /** An unconfigured build requests nothing; every configured one requests the LATEST manifest first. */
  lemma ConfiguredFetchesLatestFirst(b: Build, p: Platform, resp: Responses, installed: bool)
    ensures var r := AutoUpdateCheck(b, p, resp, installed);
      && (r.outcome == NotConfigured <==> b.projectName == Unconfigured)
      && (b.projectName == Unconfigured ==> r.requested == [])
      && (b.projectName != Unconfigured ==> |r.requested| >= 1 && r.requested[0] == b.host + b.projectName + "/LATEST")
      && (b.projectName != Unconfigured && resp.latest.None? ==> r == Report(FetchError, [LatestUrl(b)]))
  {
  }

  /**
   * A fetched manifest is rejected exactly when its trimmed text has fewer
   * than two single spaces, and then nothing more is requested.
   */
  lemma ManifestRejectedIff(b: Build, p: Platform, resp: Responses, installed: bool)
    requires b.projectName != Unconfigured && resp.latest.Some?
    ensures var r := AutoUpdateCheck(b, p, resp, installed);
      && (r.outcome == ParseError <==> Count(TrimSpace(resp.latest.value), ' ') < 2)
      && (r.outcome == ParseError ==> r.requested == [LatestUrl(b)])
  {
    ParseManifestSucceeds(resp.latest.value);
  }

  /**
   * When the manifest's revision tag is our own, the check stops as up to
   * date after the manifest request, whatever the later responses and the
   * install would have been.
   */
  lemma SameTagIsUpToDate(b: Build, p: Platform, resp: Responses, installed: bool, m: Manifest)
    requires b.projectName != Unconfigured && resp.latest.Some?
    requires ParseManifest(resp.latest.value) == Some(m) && m.gitTag == b.gitTag
    ensures AutoUpdateCheck(b, p, resp, installed) == Report(UpToDate, [LatestUrl(b)])
  {
  }

  /**
   * Once the architecture list is fetched, the check goes on to the payload
   * exactly when this platform is one of the list's tokens, and then it
   * requests `HOST PROJECT/prefix/PROJECT_GOOS_GOARCH.bz2`; otherwise it ends
   * with no matching architecture.
   */
  lemma ArchDecidesPayload(b: Build, p: Platform, resp: Responses, installed: bool, m: Manifest)
    requires b.projectName != Unconfigured && resp.latest.Some? && resp.archList.Some?
    requires ParseManifest(resp.latest.value) == Some(m) && m.gitTag != b.gitTag
    ensures var r := AutoUpdateCheck(b, p, resp, installed);
      && |r.requested| >= 2
      && r.requested[1] == b.host + b.projectName + "/" + m.prefix + ".arch"
      && (r.outcome == NoArch <==> Myself(p) !in ArchTokens(resp.archList.value))
      && (|r.requested| == 3 <==> Myself(p) in ArchTokens(resp.archList.value))
      && (|r.requested| == 3 ==>
            r.requested[2] == b.host + b.projectName + "/" + m.prefix + "/" + b.projectName + "_"
                              + p.goos + "_" + p.goarch + ".bz2")
  {
  }

  /** The check installs exactly when every step before it passes and installUpdate returns nil. */
  lemma InstalledIff(b: Build, p: Platform, resp: Responses, installed: bool)
    ensures AutoUpdateCheck(b, p, resp, installed).outcome == Installed <==>
      && b.projectName != Unconfigured
      && resp.latest.Some?
      && ParseManifest(resp.latest.value).Some?
      && ParseManifest(resp.latest.value).value.gitTag != b.gitTag
      && resp.archList.Some?
      && Myself(p) in ArchTokens(resp.archList.value)
      && resp.payload.Some?
      && installed
  {
  }

  /** The first `k` responses of two response sets are the same. */
  predicate AgreeOn(r: Responses, r': Responses, k: nat)
  {
    && (k >= 1 ==> r.latest == r'.latest)
    && (k >= 2 ==> r.archList == r'.archList)
    && (k >= 3 ==> r.payload == r'.payload)
  }

  /**
   * A check depends only on the responses to the URLs it requested, and on
   * the install result only when it reaches the install.
   */
  lemma OnlyRequestedResponsesMatter(b: Build, p: Platform, resp: Responses, installed: bool,
                                     resp': Responses, installed': bool)
    requires AgreeOn(resp, resp', |AutoUpdateCheck(b, p, resp, installed).requested|)
    requires AutoUpdateCheck(b, p, resp, installed).outcome.ReachedInstall() ==> installed == installed'
    ensures AutoUpdateCheck(b, p, resp', installed') == AutoUpdateCheck(b, p, resp, installed)
  {
  }

  /** The outcome reaches the install only after all three requests and a payload. */
  lemma InstallNeedsThreeRequests(b: Build, p: Platform, resp: Responses, installed: bool)
    ensures var r := AutoUpdateCheck(b, p, resp, installed);
      r.outcome.ReachedInstall() <==> |r.requested| == 3 && resp.payload.Some?
  {
  }

  /** The three URLs of a check differ from each other and all lie under HOST + PROJECT_NAME. */
  lemma UrlsDiffer(b: Build, prefix: string, p: Platform)
    ensures LatestUrl(b) != ArchUrl(b, prefix)
    ensures LatestUrl(b) != PayloadUrl(b, prefix, p)
    ensures ArchUrl(b, prefix) != PayloadUrl(b, prefix, p)
    ensures b.host + b.projectName <= LatestUrl(b)
    ensures b.host + b.projectName <= ArchUrl(b, prefix)
    ensures b.host + b.projectName <= PayloadUrl(b, prefix, p)
  {
    var u1, u2, u3 := LatestUrl(b), ArchUrl(b, prefix), PayloadUrl(b, prefix, p);
    assert u1[|u1| - 1] == 'T' && u2[|u2| - 1] == 'h' && u3[|u3| - 1] == '2';
  }

  /** No URL is requested twice in one check, and every URL lies under HOST + PROJECT_NAME. */
  lemma RequestedUrlsDistinct(b: Build, p: Platform, resp: Responses, installed: bool)
    ensures var r := AutoUpdateCheck(b, p, resp, installed);
      && (forall i, j | 0 <= i < j < |r.requested| :: r.requested[i] != r.requested[j])
      && (forall i | 0 <= i < |r.requested| :: b.host + b.projectName <= r.requested[i])
  {
    if b.projectName != Unconfigured && resp.latest.Some? && ParseManifest(resp.latest.value).Some? {
      UrlsDiffer(b, ParseManifest(resp.latest.value).value.prefix, p);
    } else {
      UrlsDiffer(b, "", p);
    }
  }
}
