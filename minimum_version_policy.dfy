/** The minimum-OS-version rule: when the device runs a version older than the
    administrator's minimum, an update can be applied and the policy data's
    error code is set to success; in every other case the rule defers to the
    next policy of the chain. */
module MinimumVersionPolicy {
  import opened Wrappers
  import opened Versions

  /** The result of one policy evaluation. */
  datatype EvalStatus = Failed | Succeeded | AskMeAgainLater | Continue

  /** The update error code carried by the policy data; only kSuccess is
      distinguished, every other code is kept by its number. */
  datatype ErrorCode = Success | OtherError(code: nat)

  /** A policy's status together with the error code it leaves in the policy data. */
  datatype Decision = Decision(status: EvalStatus, errorCode: ErrorCode)

  const InvalidVersion: string := "13315.woops.12"
  const OldVersion: string := "13315.60.12"
  const NewVersion: string := "13315.60.15"

  /** A version variable is usable when it is set and its text is a valid version. */
  predicate Usable(version: Option<string>)
  {
    version.Some? && Parse(version.value).Some?
  }

  /** The decision on the current version and the administrator's minimum
      version, given the error code the policy data holds beforehand. */
  function Decide(current: Option<string>, minimum: Option<string>, errorCode: ErrorCode): (r: Decision)
    ensures r.status == Succeeded || r.status == Continue
    ensures r.status == Succeeded ==> r.errorCode == Success
    ensures r.status == Continue ==> r.errorCode == errorCode
    ensures !Usable(current) || !Usable(minimum) ==> r.status == Continue
    ensures Usable(current) && Usable(minimum) ==>
      (r.status == Succeeded <==> Less(Parse(current.value).value, Parse(minimum.value).value))
  {
    if current.None? then Decision(Continue, errorCode)
    else
      match Parse(current.value)
      case None => Decision(Continue, errorCode)
      case Some(currentVersion) =>
        if minimum.None? then Decision(Continue, errorCode)
        else
          match Parse(minimum.value)
          case None => Decision(Continue, errorCode)
          case Some(minimumVersion) =>
            if Less(currentVersion, minimumVersion) then Decision(Succeeded, Success)
            else Decision(Continue, errorCode)
  }

  /** A device already at the minimum version is not forced to update:
      equality is not a trigger. */
  lemma DecideEqualContinues(version: string, errorCode: ErrorCode)
    ensures Decide(Some(version), Some(version), errorCode) == Decision(Continue, errorCode)
  {
    if Parse(version).Some? {
      CompareToReflexive(Parse(version).value);
    }
  }

  /** A device newer than the minimum version is not forced to update; so of
      two valid versions, at most one order of the pair succeeds. */
  lemma DecideNewerContinues(current: string, minimum: string, errorCode: ErrorCode)
    requires Usable(Some(current)) && Usable(Some(minimum))
    requires !Less(Parse(current).value, Parse(minimum).value)
    ensures Decide(Some(current), Some(minimum), errorCode) == Decision(Continue, errorCode)
    ensures Decide(Some(minimum), Some(current), errorCode).status == Succeeded <==>
      CompareTo(Parse(current).value, Parse(minimum).value) != 0
  {
    var c, m := Parse(current).value, Parse(minimum).value;
    CompareToAntisymmetric(c, m);
  }

  /** The old fixture version is the canonical spelling of 13315.60.12. */
  lemma FormatOldVersion()
    ensures Format([13315, 60, 12]) == OldVersion
  {
    var v: Version := [13315, 60, 12];
    assert NatToDigits(13315) == "13315";
    assert NatToDigits(60) == "60";
    assert NatToDigits(12) == "12";
    assert seq(|v|, i requires 0 <= i < |v| => NatToDigits(v[i])) == ["13315", "60", "12"];
    assert ["13315", "60", "12"][1..] == ["60", "12"] && ["60", "12"][1..] == ["12"];
    assert Strings.Join(["60", "12"], ".") == "60.12";
    assert Strings.Join(["13315", "60", "12"], ".") == OldVersion;
  }

  /** The old fixture version "13315.60.12" is valid. */
  lemma ParseOldVersion()
    ensures Parse(OldVersion) == Some([13315, 60, 12])
  {
    FormatOldVersion();
    ParseFormat([13315, 60, 12]);
  }

  /** The new fixture version is the canonical spelling of 13315.60.15. */
  lemma FormatNewVersion()
    ensures Format([13315, 60, 15]) == NewVersion
  {
    var v: Version := [13315, 60, 15];
    assert NatToDigits(13315) == "13315";
    assert NatToDigits(60) == "60";
    assert NatToDigits(15) == "15";
    assert seq(|v|, i requires 0 <= i < |v| => NatToDigits(v[i])) == ["13315", "60", "15"];
    assert ["13315", "60", "15"][1..] == ["60", "15"] && ["60", "15"][1..] == ["15"];
    assert Strings.Join(["60", "15"], ".") == "60.15";
    assert Strings.Join(["13315", "60", "15"], ".") == NewVersion;
  }

  /** The new fixture version "13315.60.15" is valid. */
  lemma ParseNewVersion()
    ensures Parse(NewVersion) == Some([13315, 60, 15])
  {
    FormatNewVersion();
    ParseFormat([13315, 60, 15]);
  }

  /** The invalid fixture version "13315.woops.12" has a non-numeric component. */
  lemma ParseInvalidVersion()
    ensures Parse(InvalidVersion) == None
  {
    assert ParseComponent("woops") == None by { assert !IsDigit("woops"[0]); }
    Strings.SplitJoin(["13315", "woops", "12"], '.');
    assert Strings.Join(["13315", "woops", "12"], ".") == InvalidVersion;
  }

  /** The old fixture version is older than the new one. */
  lemma OldBeforeNew()
    ensures Less([13315, 60, 12], [13315, 60, 15])
  {
    LessLexicographic([13315, 60, 12], [13315, 60, 15]);
    assert [13315, 60, 12][..2] == [13315, 60, 15][..2];
  }

  /** The new fixture version is not older than the old one. */
  lemma NewNotBeforeOld()
    ensures !Less([13315, 60, 15], [13315, 60, 12])
  {
    OldBeforeNew();
    CompareToAntisymmetric([13315, 60, 15], [13315, 60, 12]);
  }

  /** UpdateCanBeAppliedPolicyData: the policy data whose error code a
      succeeding policy sets. The install plan it also carries is not modelled. */
  class UpdateCanBeAppliedPolicyData {
    var errorCode: ErrorCode

    constructor (initial: ErrorCode)
      ensures errorCode == initial
    {
      errorCode := initial;
    }
  }

  /** The two state variables the rule reads: the running OS version (system
      provider) and the administrator's minimum version (device-policy
      provider); None is a variable that was never set. */
  class FakeState {
    var chromeosVersion: Option<string>
    var deviceMinimumVersion: Option<string>

    constructor ()
      ensures chromeosVersion == None && deviceMinimumVersion == None
    {
      chromeosVersion := None;
      deviceMinimumVersion := None;
    }

    method SetCurrentVersion(version: string)
      modifies this
      ensures chromeosVersion == Some(version)
      ensures deviceMinimumVersion == old(deviceMinimumVersion)
    {
      chromeosVersion := Some(version);
    }

    method SetMinimumVersion(version: string)
      modifies this
      ensures deviceMinimumVersion == Some(version)
      ensures chromeosVersion == old(chromeosVersion)
    {
      deviceMinimumVersion := Some(version);
    }
  }

  /** One evaluation of the minimum-version policy: reads both variables,
      decides, and writes the error code into the policy data in place. */
  method UpdateCanBeApplied(state: FakeState, data: UpdateCanBeAppliedPolicyData) returns (status: EvalStatus)
    modifies data
    ensures Decision(status, data.errorCode) ==
      Decide(state.chromeosVersion, state.deviceMinimumVersion, old(data.errorCode))
  {
    var current := state.chromeosVersion;
    if current.None? || Parse(current.value).None? {
      return Continue;
    }
    var minimum := state.deviceMinimumVersion;
    if minimum.None? || Parse(minimum.value).None? {
      return Continue;
    }
    if Less(Parse(current.value).value, Parse(minimum.value).value) {
      data.errorCode := Success;
      return Succeeded;
    }
    return Continue;
  }

  /** The fixture's check: evaluate, and whenever the policy succeeds the
      policy data's error code is kSuccess. The expected status is passed in
      but, as in the fixture, not consulted. */
  method TestPolicy(state: FakeState, data: UpdateCanBeAppliedPolicyData, expected: EvalStatus)
    returns (status: EvalStatus)
    modifies data
    ensures status == Succeeded ==> data.errorCode == Success
    ensures Decision(status, data.errorCode) ==
      Decide(state.chromeosVersion, state.deviceMinimumVersion, old(data.errorCode))
  {
    status := UpdateCanBeApplied(state, data);
  }

  method ContinueWhenCurrentVersionIsNotSet(initial: ErrorCode) returns (status: EvalStatus, errorCode: ErrorCode)
    ensures status == Continue && errorCode == initial
  {
    var state := new FakeState();
    var data := new UpdateCanBeAppliedPolicyData(initial);
    state.SetMinimumVersion(NewVersion);
    status := TestPolicy(state, data, Continue);
    errorCode := data.errorCode;
  }

  method ContinueWhenCurrentVersionIsInvalid(initial: ErrorCode) returns (status: EvalStatus, errorCode: ErrorCode)
    ensures status == Continue && errorCode == initial
  {
    var state := new FakeState();
    var data := new UpdateCanBeAppliedPolicyData(initial);
    state.SetCurrentVersion(InvalidVersion);
    state.SetMinimumVersion(NewVersion);
    ParseInvalidVersion();
    status := TestPolicy(state, data, Continue);
    errorCode := data.errorCode;
  }

  // Named as the test case is named, spelling included.
  method ContinueWhenMinumumVersionIsNotSet(initial: ErrorCode) returns (status: EvalStatus, errorCode: ErrorCode)
    ensures status == Continue && errorCode == initial
  {
    var state := new FakeState();
    var data := new UpdateCanBeAppliedPolicyData(initial);
    state.SetCurrentVersion(OldVersion);
    status := TestPolicy(state, data, Continue);
    errorCode := data.errorCode;
  }

  // Named as the test case is named, spelling included.
  method ContinueWhenMinumumVersionIsInvalid(initial: ErrorCode) returns (status: EvalStatus, errorCode: ErrorCode)
    ensures status == Continue && errorCode == initial
  {
    var state := new FakeState();
    var data := new UpdateCanBeAppliedPolicyData(initial);
    state.SetCurrentVersion(OldVersion);
    state.SetMinimumVersion(InvalidVersion);
    ParseInvalidVersion();
    status := TestPolicy(state, data, Continue);
    errorCode := data.errorCode;
  }

  method ContinueWhenCurrentVersionIsGreaterThanMinimumVersion(initial: ErrorCode)
    returns (status: EvalStatus, errorCode: ErrorCode)
    ensures status == Continue && errorCode == initial
  {
    var state := new FakeState();
    var data := new UpdateCanBeAppliedPolicyData(initial);
    state.SetCurrentVersion(NewVersion);
    state.SetMinimumVersion(OldVersion);
    ParseOldVersion();
    ParseNewVersion();
    NewNotBeforeOld();
    DecideNewerContinues(NewVersion, OldVersion, initial);
    status := TestPolicy(state, data, Continue);
    errorCode := data.errorCode;
  }

  method ContinueWhenCurrentVersionIsEqualToMinimumVersion(initial: ErrorCode)
    returns (status: EvalStatus, errorCode: ErrorCode)
    ensures status == Continue && errorCode == initial
  {
    var state := new FakeState();
    var data := new UpdateCanBeAppliedPolicyData(initial);
    state.SetCurrentVersion(NewVersion);
    state.SetMinimumVersion(NewVersion);
    DecideEqualContinues(NewVersion, initial);
    status := TestPolicy(state, data, Continue);
    errorCode := data.errorCode;
  }

  method SuccessWhenCurrentVersionIsLessThanMinimumVersion(initial: ErrorCode)
    returns (status: EvalStatus, errorCode: ErrorCode)
    ensures status == Succeeded && errorCode == Success
  {
    var state := new FakeState();
    var data := new UpdateCanBeAppliedPolicyData(initial);
    state.SetCurrentVersion(OldVersion);
    state.SetMinimumVersion(NewVersion);
    ParseOldVersion();
    ParseNewVersion();
    OldBeforeNew();
    status := TestPolicy(state, data, Succeeded);
    errorCode := data.errorCode;
  }

  /** What the fixture's TestPolicy accepts as written: only that a success
      carries kSuccess; the expected status plays no part. */
  predicate TestPolicyPassesAsWritten(expected: EvalStatus, status: EvalStatus, errorCode: ErrorCode)
  {
    status == Succeeded ==> errorCode == Success
  }

  /** What the test names and arguments evidently intend: the status is the
      expected one, and a success carries kSuccess. */
  predicate TestPolicyPasses(expected: EvalStatus, status: EvalStatus, errorCode: ErrorCode)
  {
    status == expected && (status == Succeeded ==> errorCode == Success)
  }

  /** A policy that never enforces the minimum version. */
  function AlwaysContinue(current: Option<string>, minimum: Option<string>, errorCode: ErrorCode): Decision
  {
    Decision(Continue, errorCode)
  }

  /** The check as written accepts the never-enforcing policy on the fixture
      that expects success, which the intended check rejects. */
  lemma AsWrittenAcceptsAlwaysContinue(initial: ErrorCode)
    ensures var d := AlwaysContinue(Some(OldVersion), Some(NewVersion), initial);
      TestPolicyPassesAsWritten(Succeeded, d.status, d.errorCode) &&
      !TestPolicyPasses(Succeeded, d.status, d.errorCode)
  {
  }

  /** The modelled rule passes the intended check on all seven fixtures. */
  lemma DecideMeetsFixtureIntent(initial: ErrorCode)
    ensures var d := Decide(None, Some(NewVersion), initial);
      TestPolicyPasses(Continue, d.status, d.errorCode)
    ensures var d := Decide(Some(InvalidVersion), Some(NewVersion), initial);
      TestPolicyPasses(Continue, d.status, d.errorCode)
    ensures var d := Decide(Some(OldVersion), None, initial);
      TestPolicyPasses(Continue, d.status, d.errorCode)
    ensures var d := Decide(Some(OldVersion), Some(InvalidVersion), initial);
      TestPolicyPasses(Continue, d.status, d.errorCode)
    ensures var d := Decide(Some(NewVersion), Some(OldVersion), initial);
      TestPolicyPasses(Continue, d.status, d.errorCode)
    ensures var d := Decide(Some(NewVersion), Some(NewVersion), initial);
      TestPolicyPasses(Continue, d.status, d.errorCode)
    ensures var d := Decide(Some(OldVersion), Some(NewVersion), initial);
      TestPolicyPasses(Succeeded, d.status, d.errorCode)
  {
    ParseOldVersion();
    ParseNewVersion();
    ParseInvalidVersion();
    OldBeforeNew();
    NewNotBeforeOld();
    DecideNewerContinues(NewVersion, OldVersion, initial);
    DecideEqualContinues(NewVersion, initial);
  }
}
