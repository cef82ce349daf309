/**
 * The constants a build bakes into the program and the peer-version
 * pre-filter SignalVersion, which decides whether a peer's version is worth
 * an update check. The asynchronous start of the check is left to callers:
 * the model returns whether the check would be started.
 */
module Version {
  import opened GoStrings

  /**
   * The package-level constants of a build: GIT_TAG (revision tag),
   * DATE_TAG (build stamp), PROJECT_NAME and HOST (the update server's base
   * URL). They never change while the program runs.
   */
  datatype Build = Build(gitTag: string, dateTag: string, projectName: string, host: string)

  /**
   * SignalVersion(git, build): a peer runs revision `git` built at `build`.
   * Returns whether RunAutoUpdateCheck would be started.
   */
  predicate SignalVersion(b: Build, git: string, build: string)
  {
    if git == "" then false
    else if git == b.gitTag then false
    else if LessEq(build, b.dateTag) then false
    else true
  }

  /**
   * The check is started exactly when the peer's tag is known and differs
   * from ours and the peer's stamp is strictly later than ours in Go's
   * byte-wise string order.
   */
  lemma SignalVersionTriggers(b: Build, git: string, build: string)
    ensures SignalVersion(b, git, build) <==> git != "" && git != b.gitTag && Less(b.dateTag, build)
  {
    LessIsNotLessEq(b.dateTag, build);
  }

  /** An unknown peer (empty tag) never starts a check, whatever its stamp. */
  lemma EmptyTagNeverTriggers(b: Build, build: string)
    ensures !SignalVersion(b, "", build)
  {
  }

  /** A peer built at our own stamp never starts a check. */
  lemma OwnStampNeverTriggers(b: Build, git: string)
    ensures !SignalVersion(b, git, b.dateTag)
  {
    LessEqReflexive(b.dateTag);
  }

  /** A peer built no later than us never starts a check. */
  lemma OlderStampNeverTriggers(b: Build, git: string, build: string)
    requires LessEq(build, b.dateTag)
    ensures !SignalVersion(b, git, build)
  {
  }

  /** If a stamp starts a check, every later stamp of the same tag does too. */
  lemma LaterStampStillTriggers(b: Build, git: string, build: string, later: string)
    requires SignalVersion(b, git, build) && LessEq(build, later)
    ensures SignalVersion(b, git, later)
  {
    if LessEq(later, b.dateTag) {
      LessEqTransitive(build, later, b.dateTag);
      assert false;
    }
  }
}
