# Bus-device summaries and the minimum-OS-version rule of an update client

This project models two pieces of a device-resident update client in Dafny and proves what they promise.

**TelemetryInfo's bus-device summaries** (`common/telemetry_info.cc`). A `TelemetryInfo` holds an ordered list of bus devices. Each device has a device class and a tagged union of PCI information (vendor id, device id, driver name) or USB information (vendor id, product id). Three builders turn the list into a space-separated string:
- `GetWirelessDrivers` gives the named drivers of the PCI wireless controllers.
- `GetBusDeviceIds` gives one `VENDOR:DEVICE` (PCI) or `VENDOR:PRODUCT` (USB) token per device of a given class. Each half is `base::HexEncode` over the raw memory bytes of the identifier field.
- `GetWirelessIds` and `GetGpuIds` are `GetBusDeviceIds` for wireless controllers and for display controllers.

Each builder is a method with a `for` loop that appends to a growing sequence, as the source does. Its postcondition ties the result to an order-preserving filter-map (`Collect`) over the device list. Lemmas then say which devices contribute, in which order, how many tokens the string splits into, and that each identifier token reads back as its device's identifiers.

**The minimum-version rule** (`update_manager/minimum_version_policy_impl_unittest.cc`). The rule reads two variables: the running OS version and the administrator's minimum version. If either is unset or is not a dotted numeric version, the rule returns `Continue`. If current < minimum, it returns `Succeeded` and sets the policy data's error code to kSuccess. Otherwise it returns `Continue`. `Decide` is the rule as a function. `UpdateCanBeApplied` is the rule as a method that writes the error code into an `UpdateCanBeAppliedPolicyData` object in place. `FakeState` holds the two variables the fixture sets. Each of the seven test cases is a method whose postcondition is the status its name promises.

Modules: `Wrappers` (Option), `Strings` (join and split), `Encoding` (memory bytes of an integer, hexadecimal), `Telemetry`, `Versions` (parse, format, compare), `MinimumVersionPolicy`.

## Model

| member | source | states |
|---|---|---|
| `Telemetry.GetWirelessDrivers` | common/telemetry_info.cc:24-38 | The result is the space-join of the drivers selected from the device list, in device order. The loop invariant covers the processed prefix. |
| `Telemetry.WirelessDriversSelected` | common/telemetry_info.cc:26-34 | The driver list has one entry per device that is a wireless controller, on PCI, with a non-empty driver, in increasing device order. Every such device contributes, and no other device does. |
| `Telemetry.UsbContributesNoDriver` | common/telemetry_info.cc:30-31 | A USB device never contributes a driver, whatever its class. |
| `Telemetry.WirelessDriver` | common/telemetry_info.cc:27-34 | A device contributes a driver iff it is a wireless controller on PCI with a non-empty driver, and what it contributes is that driver. |
| `Telemetry.WirelessDriversTokens` | common/telemetry_info.cc:32-37 | If no contributed driver contains a space, the joined string splits back into exactly the selected drivers: one token per contributing device, no empty token. |
| `Telemetry.WirelessDriversEmptyIff` | common/telemetry_info.cc:37 | The driver string is empty iff no device contributes a driver. |
| `Telemetry.GetBusDeviceIds` | common/telemetry_info.cc:48-77 | The result is the space-join of the identifier tokens of the devices of the requested class, in device order. The loop invariant covers the processed prefix. |
| `Telemetry.GetWirelessIds` | common/telemetry_info.cc:40-42 | The result equals the identifier string for the wireless-controller class. |
| `Telemetry.GetGpuIds` | common/telemetry_info.cc:44-46 | The result equals the identifier string for the display-controller class. |
| `Telemetry.FormatId` | common/telemetry_info.cc:56-63 | A formatted identifier has 4 × width + 1 characters, with the colon right after the first identifier's 2 × width hex digits. |
| `Telemetry.IdToken` | common/telemetry_info.cc:52-74 | A device yields a token iff it has the requested class and is on PCI or USB. The token has 4 × width + 1 characters. |
| `Telemetry.CollectSelects` | common/telemetry_info.cc:26-36 | The filter-map keeps exactly the devices the selector accepts, in increasing index order, and the k-th output comes from the k-th accepted device. |
| `Telemetry.BusDeviceIdsSelected` | common/telemetry_info.cc:51-75 | The identifier list has one token per device of the requested class on PCI or USB, in device order. Each token formats that device's vendor id with its device id (PCI) or product id (USB). Devices of another class or on another bus contribute nothing. |
| `Telemetry.BusDeviceIdsTokens` | common/telemetry_info.cc:56-76 | The identifier string splits back into exactly the listed tokens, one per selected device. It is empty iff no device is selected. |
| `Telemetry.BusDeviceIdsRoundTrip` | common/telemetry_info.cc:54-74 | The k-th token of the identifier string reads back as the identifier pair of the k-th selected device, when the identifiers fit the field width. |
| `Telemetry.FormatIdRoundTrip` | common/telemetry_info.cc:56-63 | A formatted identifier is non-empty, has no space, and parses back to its two identifiers when they fit the field width. |
| `Encoding.IntBytes` | common/telemetry_info.cc:58-61 | The memory image of an identifier field (`&field`, `sizeof` of its type) has exactly the field's width in bytes. The byte order is a parameter. |
| `Encoding.HexEncode` | common/telemetry_info.cc:68-71 | base::HexEncode gives two characters per byte. |
| `Encoding.IntBytesRoundTrip` | common/telemetry_info.cc:58-61 | The memory image of a field (its width in bytes, in either byte order) reads back as the value, for any value that fits the width. |
| `Encoding.HexRoundTrip` | common/telemetry_info.cc:58-61 | Hex-decoding the hex encoding of a byte buffer gives the buffer back. |
| `Encoding.HexEncodeDigits` | common/telemetry_info.cc:68-71 | The hex encoding holds only upper-case hexadecimal digits, so never a space or a colon. |
| `Strings.Join` | common/telemetry_info.cc:56-63 | base::JoinString: the result's length is the parts' total length plus one separator between each pair of consecutive parts, and it starts with the first part. |
| `Strings.SplitJoin` | common/telemetry_info.cc:56-63 | Splitting a joined list at the separator gives the parts back when no part contains the separator. |
| `Strings.JoinEmptyIff` | common/telemetry_info.cc:76 | Joining non-empty parts gives the empty string iff there are no parts. |
| `Strings.TokensJoin` | common/telemetry_info.cc:37 | The space-separated tokens of a space-join of non-empty, space-free parts are exactly those parts, none empty. |
| `Versions.Parse` | update_manager/minimum_version_policy_impl_unittest.cc:28-30 | A text is a valid version iff every dot-separated piece is a non-empty run of decimal digits. The version then has one component per piece, each the piece's decimal value. This stands for base::Version parsing, whose code is not in the modelled files. |
| `Versions.CompareTo` | update_manager/minimum_version_policy_impl_unittest.cc:91-113 | The result is -1, 0 or 1. It is 0 iff the versions agree component by component, with missing components taken as 0. This stands for base::Version's CompareTo, whose code is not in the modelled files. |
| `Versions.Less` | update_manager/minimum_version_policy_impl_unittest.cc:107-113 | If a is older than b, then b compares greater than a. This stands for base::Version's `<`. |
| `Versions.DigitsRoundTrip` | update_manager/minimum_version_policy_impl_unittest.cc:28-30 | The decimal digits of a number read back as the number. |
| `Versions.ParseFormat` | update_manager/minimum_version_policy_impl_unittest.cc:28-30 | Parsing the dotted decimal spelling of any version gives that version back. |
| `Versions.CompareToReflexive` | update_manager/minimum_version_policy_impl_unittest.cc:99-105 | Every version compares equal to itself. |
| `Versions.CompareToAntisymmetric` | update_manager/minimum_version_policy_impl_unittest.cc:91-97 | Swapping the operands negates the comparison. |
| `Versions.LessTransitive` | update_manager/minimum_version_policy_impl_unittest.cc:107-113 | "Older than" is transitive. |
| `Versions.LessLexicographic` | update_manager/minimum_version_policy_impl_unittest.cc:107-113 | For versions with the same number of components, "older than" holds iff they agree up to some component and the first is smaller there. |
| `MinimumVersionPolicy.Decide` | update_manager/minimum_version_policy_impl_unittest.cc:65-113 | The status is Succeeded or Continue. An unset or invalid current or minimum version gives Continue. With both valid, the status is Succeeded iff current < minimum. Succeeded sets kSuccess, and Continue leaves the error code unchanged. |
| `MinimumVersionPolicy.DecideEqualContinues` | update_manager/minimum_version_policy_impl_unittest.cc:99-105 | A current version equal to the minimum gives Continue and leaves the error code unchanged. |
| `MinimumVersionPolicy.DecideNewerContinues` | update_manager/minimum_version_policy_impl_unittest.cc:91-97 | A valid current version that is not older than a valid minimum gives Continue. With the roles swapped, the rule succeeds iff the two versions differ. |
| `MinimumVersionPolicy.ParseOldVersion` | update_manager/minimum_version_policy_impl_unittest.cc:29 | "13315.60.12" is the valid version 13315.60.12. |
| `MinimumVersionPolicy.ParseNewVersion` | update_manager/minimum_version_policy_impl_unittest.cc:30 | "13315.60.15" is the valid version 13315.60.15. |
| `MinimumVersionPolicy.ParseInvalidVersion` | update_manager/minimum_version_policy_impl_unittest.cc:28 | "13315.woops.12" is not a valid version. |
| `MinimumVersionPolicy.OldBeforeNew` | update_manager/minimum_version_policy_impl_unittest.cc:107-113 | The old fixture version is older than the new one. |
| `MinimumVersionPolicy.NewNotBeforeOld` | update_manager/minimum_version_policy_impl_unittest.cc:91-97 | The new fixture version is not older than the old one. |
| `MinimumVersionPolicy.UpdateCanBeAppliedPolicyData.constructor` | update_manager/minimum_version_policy_impl_unittest.cc:39 | New policy data holds the given error code. |
| `MinimumVersionPolicy.FakeState.constructor` | update_manager/minimum_version_policy_impl_unittest.cc:36-43 | Both version variables start unset. |
| `MinimumVersionPolicy.FakeState.SetCurrentVersion` | update_manager/minimum_version_policy_impl_unittest.cc:45-48 | Sets the current-version variable and leaves the minimum-version variable alone. |
| `MinimumVersionPolicy.FakeState.SetMinimumVersion` | update_manager/minimum_version_policy_impl_unittest.cc:50-53 | Sets the minimum-version variable and leaves the current-version variable alone. |
| `MinimumVersionPolicy.UpdateCanBeApplied` | update_manager/minimum_version_policy_impl_unittest.cc:56 | The status and the error code written into the policy data are Decide's verdict on the two variables and the previous error code. |
| `MinimumVersionPolicy.TestPolicy` | update_manager/minimum_version_policy_impl_unittest.cc:55-59 | Whenever the evaluation succeeds, the policy data's error code is kSuccess. |
| `MinimumVersionPolicy.ContinueWhenCurrentVersionIsNotSet` | update_manager/minimum_version_policy_impl_unittest.cc:65-69 | Current unset, minimum new: Continue, error code unchanged. |
| `MinimumVersionPolicy.ContinueWhenCurrentVersionIsInvalid` | update_manager/minimum_version_policy_impl_unittest.cc:71-76 | Current invalid, minimum new: Continue, error code unchanged. |
| `MinimumVersionPolicy.ContinueWhenMinumumVersionIsNotSet` | update_manager/minimum_version_policy_impl_unittest.cc:78-82 | Current old, minimum unset: Continue, error code unchanged. |
| `MinimumVersionPolicy.ContinueWhenMinumumVersionIsInvalid` | update_manager/minimum_version_policy_impl_unittest.cc:84-89 | Current old, minimum invalid: Continue, error code unchanged. |
| `MinimumVersionPolicy.ContinueWhenCurrentVersionIsGreaterThanMinimumVersion` | update_manager/minimum_version_policy_impl_unittest.cc:91-97 | Current new, minimum old: Continue, error code unchanged. |
| `MinimumVersionPolicy.ContinueWhenCurrentVersionIsEqualToMinimumVersion` | update_manager/minimum_version_policy_impl_unittest.cc:99-105 | Current and minimum both new: Continue, error code unchanged. |
| `MinimumVersionPolicy.SuccessWhenCurrentVersionIsLessThanMinimumVersion` | update_manager/minimum_version_policy_impl_unittest.cc:107-113 | Current old, minimum new: Succeeded, error code kSuccess. |
| `MinimumVersionPolicy.AsWrittenAcceptsAlwaysContinue` | update_manager/minimum_version_policy_impl_unittest.cc:55-59 | The check as written accepts a policy that never enforces the minimum, even on the case that expects Succeeded. The intended check rejects it. |
| `MinimumVersionPolicy.DecideMeetsFixtureIntent` | update_manager/minimum_version_policy_impl_unittest.cc:65-113 | On all seven fixtures the rule gives the status each test names, and the Succeeded case carries kSuccess. |

## Left out

- minimum_version_policy_impl.cc is not part of this model. The rule is taken from the behaviour the test cases name: their names, their arguments and the expected statuses they pass.
- telemetry_info.h is not part of this model. The size of the identifier fields and the machine's byte order are therefore parameters (`IdLayout`), one width shared by all four identifier fields. Device classes other than display and wireless controller are `OtherClass(code)`, one value per class code. Any bus alternative other than PCI and USB is `OtherBusInfo`.
- Telemetry.BusDeviceIdsRoundTrip: read-back is stated only for identifiers that fit the field width. In the source the field's integer type guarantees this. In the model an identifier is an unbounded natural, and `IntBytes` keeps its low-order bytes.
- Telemetry.WirelessDriversTokens: the token count is stated only when no contributed driver contains a space. The source does not check driver names, and such a driver would yield more than one token. Whether the string is empty (WirelessDriversEmptyIff) needs no such hypothesis.
- Version parsing accepts any non-empty run of decimal digits per component. The fixtures do not pin down base::Version's rejection of leading zeros, its 32-bit component limit, or its other edge cases, so these are not modelled.
- Versions with different numbers of components are compared with the missing components taken as 0. No fixture exercises this case.
- The policy data's initial error code is a constructor parameter. The fixture builds the data from an install plan only (update_manager/minimum_version_policy_impl_unittest.cc:39), and the default code is set in a header that is not part of this model. Every test case is proved for any initial code.
- The install plan inside `UpdateCanBeAppliedPolicyData` is not modelled. The rule only writes the error code.
- The policy chain, the evaluator loop, evaluation contexts, asynchronous variables, deadlines and re-evaluation are not modelled. They belong to a test harness and an engine not in the modelled files.
- Metric constants and reporting, daemon start-up and D-Bus registration, the D-Bus connection, and the Omaha response handler are not modelled. They are I/O and inter-process plumbing, and the response handler has no bodies to model.

## Findings

| source | as written | input that shows it | evidently intended | confidence | as-written member | corrected member |
|---|---|---|---|---|---|---|
| update_manager/minimum_version_policy_impl_unittest.cc:55-59 | `TestPolicy` never compares the evaluated status with `expected_status`. It only checks that Succeeded carries kSuccess. | A policy that always returns Continue passes `SuccessWhenCurrentVersionIsLessThanMinimumVersion` (current "13315.60.12", minimum "13315.60.15"). | The status must equal the expected status, and Succeeded must carry kSuccess. | high, not executed | `MinimumVersionPolicy.AsWrittenAcceptsAlwaysContinue` | `MinimumVersionPolicy.DecideMeetsFixtureIntent` |
