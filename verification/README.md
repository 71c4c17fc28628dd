# Camera Explorer parameter layer, modelled in Dafny

Camera Explorer is a Windows Phone camera sample. It wraps the camera's weakly-typed native
properties in uniform *parameter* objects that a settings page can list and change:

- **range parameters** have a minimum, a maximum and a value;
- **array parameters** choose from a list of options rebuilt from the device on every refresh.

This project models that layer and the small pure pieces around it, and proves what each piece
promises. The model is functional: every object is an immutable record, and every setter returns a
new record.

- **Notifications.** `PropertyChanged` notifications are an appended log of property names. They
  are delivered only when somebody subscribed.
- **Exceptions after partial mutation.** A C# exception thrown after some fields were written is
  an `Outcome` that is either `Returned(state)` or `Threw(state, error)`.
- **The device.** The camera (`PhotoCaptureDevice`) is a pure oracle. Each property has:
  - a range query;
  - a supported-values query;
  - a current-value query, where each query can fail, answer `null`, or report a value;
  - a flag saying whether `SetProperty` succeeds.

| file | module | models |
|---|---|---|
| common.dfy | `Common` | `null` (`Option`), exceptions (`Error`, `Result`, `Outcome`), Int32/UInt32 wrap-around, decimal text, ASCII `ToLower` |
| device.dfy | `Device` | the device oracle, the platform enums, the `Value` union of option values |
| parameter.dfy | `ParameterBase` | `Parameter`: flags, name, overlay image rule, notifications, base `SetDefault` |
| range_parameter.dfy | `RangeParameters` | `RangeParameter<T>`, with exposure compensation (Int32) and flash power (UInt32) |
| array_parameter.dfy | `ArrayParameters` | `ArrayParameter`: the `SelectedOption` setter, `SetOption`, the enumerator |
| array_catalog.dfy | `ArrayCatalog` | `Refresh` and `PopulateOptions` of the ten array parameters (ladders, preset list, enumerated kinds), and their `SetDefault` |
| settings.dfy | `Registry` | `Settings.Refresh` and the `Parameters` setter |
| template_selectors.dfy | `Templates` | `SettingsTemplateSelector` and `OverlayTemplateSelector` |
| extensions.dfy | `Extensions` | `EnumerationToParameterName` |
| parser.dfy | `Parser` | the older `PhotoCaptureDeviceParser`: labels, range and array parsing, the ISO doubling ladder, failure-isolated `Parse` |
| camera_settings.dfy | `CameraSettingsModel` | the universal app's `CameraSettings`: setters, `NextFlashMode`, `CopyFrom` |
| camera_session.dfy | `Session` | `CameraSession`: state events, open/close/capture, `NextDevice`, the flash mapping |
| camera_utilities.dfy | `ExifOrientation` | `GetExifOrientationForDeviceOrientation`. The tag values are those of the Orientation tag (0x0112) in section 4.6.4 A of Exif 2.3 (CIPA DC-008) |
| capture_resolution.dfy | `Resolutions` | `CaptureResolution`: the constructor, `Equals`, `ToString` |

Where the code and its documentation disagree, the model follows the code:

- The image setter of `Parameter` notifies "ImageSource". `ArrayParameter` and `RangeParameter`
  then notify "OverlaySource" by hand. `ImageSource` and `OverlaySource` are modelled as one field.
- This revision's `ArrayParameter` constructors do not refresh, but the `RangeParameter`
  constructor does. So the parameters `Settings.Refresh` builds have array entries with no options
  that still count as supported and modifiable.
- Which array parameters are overlay-capable is not stated by the two-argument base constructor
  call. The model takes the kinds whose options carry overlay images: scene mode, white-balance
  preset, flash mode, ISO and exposure time.
- The `SelectedOption` setter repeats the "first selection during a refresh" guard before its
  notifications. By then the new option is stored, so that guard never holds. The first selection
  skips only the device write, and is notified like any other.
- The flash-power default is documented as "the middle value in the supported range". It is
  computed in unchecked UInt32 arithmetic, which is the middle only when `Minimum <= Maximum`.

## Model

| member | source | states |
|---|---|---|
| ParameterBase.Emit | CameraExplorer/Parameter.cs:128-134 | a notification reaches the log exactly when there is a subscriber; otherwise nothing changes |
| ParameterBase.NewBase | CameraExplorer/Parameter.cs:22-27 | a new parameter is supported and modifiable, holds no image, and satisfies the overlay rule |
| ParameterBase.SetName | CameraExplorer/Parameter.cs:46-51 | the name is stored, "Name" is notified, and nothing else changes |
| ParameterBase.SetSupported | CameraExplorer/Parameter.cs:99-104 | the flag is stored and "Supported" is notified even when the value is unchanged; nothing else changes |
| ParameterBase.SetModifiable | CameraExplorer/Parameter.cs:115-120 | the flag is stored and "Modifiable" is notified even when the value is unchanged; nothing else changes |
| ParameterBase.ImageSource | CameraExplorer/Parameter.cs:57-66 | an overlay parameter never reads as `null`; a non-overlay parameter that keeps the rule always reads as `null` |
| ParameterBase.SetImageSource | CameraExplorer/Parameter.cs:69-88 | on an overlay parameter `null` is stored as "" and "ImageSource" is notified; otherwise a non-null image throws ArgumentException and `null` changes nothing, not even the log |
| ParameterBase.SetImageSourceKeepsRule | CameraExplorer/Parameter.cs:57-88 | whatever image is set, the overlay rule still holds, and the getter reads back what was set ("" for `null`) or `null` |
| ParameterBase.BaseSetDefault | CameraExplorer/Parameter.cs:123-126 | the base default always throws NotImplementedException and changes nothing |
| RangeParameters.SetMinimum | CameraExplorer/RangeParameter.cs:83-91 | the minimum is stored; "Minimum" is notified only when it changed; setting an equal value changes nothing |
| RangeParameters.SetMaximum | CameraExplorer/RangeParameter.cs:104-112 | the maximum is stored; "Maximum" is notified only when it changed; setting an equal value changes nothing |
| RangeParameters.Query | CameraExplorer/RangeParameter.cs:41-62 | the try block: supported exactly when the range and value are readable and fit T; then the bounds and value are the device's; no device write; a `null` range leaves the fields as they were |
| RangeParameters.Refresh | CameraExplorer/RangeParameter.cs:39-71 | supported exactly when readable; modifiable exactly when supported and min differs from max; no device write; "Value" and "OverlaySource" notified only when supported, after the flag notifications |
| RangeParameters.RefreshIdempotent | CameraExplorer/RangeParameter.cs:39-71 | refreshing twice against the same device changes no field the first refresh set, and the second refresh notifies no bound change |
| RangeParameters.NewRange | CameraExplorer/RangeParameter.cs:27-33 | the constructor refreshes at once: supported and modifiable follow the device, and nothing has been notified or written |
| RangeParameters.SetValue | CameraExplorer/RangeParameter.cs:125-142 | an equal value changes nothing; a new value is always stored; a successful write is recorded and "Value" notified once; a failing write leaves the value stored with no notification |
| RangeParameters.SetValueIdempotent | CameraExplorer/RangeParameter.cs:127 | setting the same value twice equals setting it once |
| RangeParameters.Int32Midpoint | CameraExplorer/RangeParameter.cs:159-162 | the exposure-compensation default is an Int32 and, for an ordered range without overflow, is `min + (max - min) / 2` and lies in the range |
| RangeParameters.UInt32Midpoint | CameraExplorer/RangeParameter.cs:178-181 | the flash-power default is a UInt32 and, for an ordered range, is `min + (max - min) / 2` and lies in the range |
| RangeParameters.DefaultValue | CameraExplorer/RangeParameter.cs:159-181 | the default fits the parameter's type, and lies in the range when min <= max and the span fits an Int32 |
| RangeParameters.SetDefault | CameraExplorer/RangeParameter.cs:159-162 | the default goes through the `Value` setter: the value becomes the midpoint and the bounds stay |
| RangeParameters.MidpointExamples | CameraExplorer/RangeParameter.cs:159-162 | [-2, 2] and [-3, 3] default to 0; [0, 1] to 0 and [0, 100] to 50 |
| ArrayParameters.NewArray | CameraExplorer/ArrayParameter.cs:113-122 | a constructed array parameter has no options and no selection, is supported and modifiable, and satisfies the invariant |
| ArrayParameters.SetOption | CameraExplorer/ArrayParameter.cs:259-266 | a resolution write clears Modifiable, writes, and restores it only when the write succeeds; any other kind writes the value once or throws, changing nothing else |
| ArrayParameters.Store | CameraExplorer/ArrayParameter.cs:182-184 | the selection is stored and the option's image goes through the image setter, which throws only when a non-overlay parameter gets an image |
| ArrayParameters.Announce | CameraExplorer/ArrayParameter.cs:186-190 | "SelectedOption" then "OverlaySource" are notified, nothing else changes |
| ArrayParameters.Select | CameraExplorer/ArrayParameter.cs:167-191 | `null` and the current option are no-ops; a completed selection stores the choice; options, flags and invariant are kept; a non-resolution write failure leaves the parameter as it was |
| ArrayParameters.SelectDuringRefresh | CameraExplorer/ArrayParameter.cs:173-187 | the first selection during a refresh writes nothing to the device, yet is stored and notified like any other, because the second guard tests the option just stored |
| ArrayParameters.SelectWritesThrough | CameraExplorer/ArrayParameter.cs:173-189 | outside that case a new option is written once, stored, its image copied, and "SelectedOption" then "OverlaySource" notified; a rejected write leaves everything unchanged |
| ArrayParameters.SelectResolution | CameraExplorer/ArrayParameter.cs:259-266 | selecting a resolution stores it whether or not the write succeeds; Modifiable ends as the write's success |
| ArrayParameters.SelectRoundTrip | CameraExplorer/ArrayParameter.cs:171-173 | after selecting an option it reads back as selected, and selecting it again is a no-op |
| ArrayParameters.GetEnumerator | CameraExplorer/ArrayParameter.cs:201-204 | the enumerator captures the option count and starts before the first option |
| ArrayParameters.MoveNext | CameraExplorer/ArrayParameter.cs:44-56 | advances and answers true exactly while a further option exists; otherwise stays and answers false |
| ArrayParameters.Reset | CameraExplorer/ArrayParameter.cs:58-61 | rewinds to before the first option and keeps the count |
| ArrayParameters.Enumerate | CameraExplorer/ArrayParameter.cs:44-56 | a foreach yields exactly the options in index order, ends on the last one, and MoveNext then answers false |
| ArrayParameters.ResetRewinds | CameraExplorer/ArrayParameter.cs:58-61 | after Reset the next MoveNext lands on the first option |
| ArrayCatalog.ImageOf | CameraExplorer/ArrayParameter.cs:565 | only overlay-capable kinds give an enumerated value an image file |
| ArrayCatalog.Describe | CameraExplorer/ArrayParameter.cs:512 | the option of a device value carries that value and its enum name, and an image only on an overlay-capable kind |
| ArrayCatalog.DescribeAll | CameraExplorer/ArrayParameter.cs:508-520 | one option per supported value, in device order, each describing its value |
| ArrayCatalog.AutoChoice | CameraExplorer/ArrayParameter.cs:391 | the leading "Auto" option has a `null` value, with an image only on an overlay-capable kind |
| ArrayCatalog.LastMatch | CameraExplorer/ArrayParameter.cs:508-519 | the selection a foreach that overwrites on every match ends with is an option equal to the current value |
| ArrayCatalog.LastMatchIsLast | CameraExplorer/ArrayParameter.cs:515-518 | the selection a foreach that overwrites on every match ends with: no later option matches, and there is none only if no option matches |
| ArrayCatalog.AddOne | CameraExplorer/ArrayParameter.cs:512-518 | one iteration appends the option and selects it at once exactly when it equals the current value |
| ArrayCatalog.AddAll | CameraExplorer/ArrayParameter.cs:510-519 | when the foreach completes, the options are the device values in order and the selection is the last match, else unchanged |
| ArrayCatalog.AddAllWritesNothing | CameraExplorer/ArrayParameter.cs:173-176 | with at most one match, populating during a refresh never writes to the device and never throws |
| ArrayCatalog.PopulateEnumerated | CameraExplorer/ArrayParameter.cs:503-521 | returns only when the value list is reported and the current value can be read; the options are then one per supported value, in order |
| ArrayCatalog.Steps | CameraExplorer/ArrayParameter.cs:455 | every ladder step is positive, so `1000000 / i` is defined |
| ArrayCatalog.Rung | CameraExplorer/ArrayParameter.cs:407 | a rung option carries its device value, with an image only on an overlay-capable kind |
| ArrayCatalog.Kept | CameraExplorer/ArrayParameter.cs:403-405 | the offered steps are no more than the ladder's, all positive |
| ArrayCatalog.KeptMembers | CameraExplorer/ArrayParameter.cs:403-405 | a ladder step is offered exactly when it is on the ladder and its device value lies in [min, max] |
| ArrayCatalog.KeptAscending | CameraExplorer/ArrayParameter.cs:403-416 | the offered steps keep the ladder's ascending order and all lie in range |
| ArrayCatalog.LaddersAscend | CameraExplorer/ArrayParameter.cs:346-353 | the ISO, Kelvin and shutter ladders rise in device value; shutter because `1000000 / i` falls as `i` rises |
| ArrayCatalog.RungsOf | CameraExplorer/ArrayParameter.cs:407-409 | one option per offered step, in order, each that step's rung |
| ArrayCatalog.LadderOptions | CameraExplorer/ArrayParameter.cs:391-416 | the ladder options are Auto first, then the rungs in range |
| ArrayCatalog.LadderOffers | CameraExplorer/ArrayParameter.cs:398-416 | the offered rungs ascend, lie in [min, max], and include every ladder step in range |
| ArrayCatalog.FillAndSelect | CameraExplorer/ArrayParameter.cs:418 | the final assignment during a refresh always completes, selects the tracked option and writes nothing |
| ArrayCatalog.LadderFrom | CameraExplorer/ArrayParameter.cs:391-418 | with the range read: the ladder options, and the selection is the last rung equal to the device value, else Auto |
| ArrayCatalog.PopulateLadder | CameraExplorer/ArrayParameter.cs:389-418 | returns exactly when the range is reported, the value query does not fail and the bounds fit UInt32; otherwise throws with only Auto added |
| ArrayCatalog.PresetsFrom | CameraExplorer/ArrayParameter.cs:664-687 | Auto then one option per preset; the preset equal to the device value is selected once at the end, else Auto |
| ArrayCatalog.PopulatePresets | CameraExplorer/ArrayParameter.cs:662-687 | returns exactly when the list is reported and the value query does not fail; otherwise throws with only Auto added |
| ArrayCatalog.Populate | CameraExplorer/ArrayParameter.cs:134 | every population keeps the kind and the invariant, whether it returns or throws; exposure time goes through the code as written |
| ArrayCatalog.PopulateExposureTimeAsWritten | CameraExplorer/ArrayParameter.cs:339-368 | the exposure-time code as written always ends with Auto selected |
| ArrayCatalog.Cleared | CameraExplorer/ArrayParameter.cs:126-130 | refresh starts by discarding all options and the selection |
| ArrayCatalog.Conclude | CameraExplorer/ArrayParameter.cs:132-154 | supported exactly when population returned with options; modifiable exactly when supported with more than one; "Count", "SelectedOption", "OverlaySource" only when supported |
| ArrayCatalog.Refresh | CameraExplorer/ArrayParameter.cs:124-155 | whatever the device does, the invariant holds afterwards, the refresh flag is off again, and Modifiable implies Supported |
| ArrayCatalog.RefreshLadder | CameraExplorer/ArrayParameter.cs:339-418 | for ISO, Kelvin and exposure time: supported exactly when the range reads; the options are the ladder; modifiable exactly when a rung is in range; ISO and Kelvin select the matching rung, exposure time always selects Auto; no device write |
| ArrayCatalog.RefreshPresets | CameraExplorer/ArrayParameter.cs:662-687 | for the preset list: supported exactly when the list reads; modifiable exactly when a preset exists; the matching preset is selected; no device write |
| ArrayCatalog.RefreshEnumerated | CameraExplorer/ArrayParameter.cs:503-521 | for the enumerated kinds: supported exactly when values exist, modifiable when more than one; the matching value is selected; no device write |
| ArrayCatalog.IsoKeptExample | CameraExplorer/ArrayParameter.cs:398-416 | of the ISO ladder only 100 lies in [50, 150] |
| ArrayCatalog.IsoRangeExample | CameraExplorer/ArrayParameter.cs:389-418 | an ISO range of [50, 150] gives the options Auto and ISO 100 |
| ArrayCatalog.LadderTracksCurrent | CameraExplorer/ArrayParameter.cs:403-418 | for ISO and manual white balance: when the device value is a rung in range, that rung is selected |
| ArrayCatalog.LadderTrackingSelects | CameraExplorer/ArrayParameter.cs:403-418 | any ladder that adopts the matching rung selects the rung equal to an in-range device value |
| ArrayCatalog.PopulateExposureTimeCorrected | CameraExplorer/ArrayParameter.cs:361 | corrected exposure time: returns exactly when the as-written code does, with the same rungs, and selects the last rung equal to the device value, Auto when none is |
| ArrayCatalog.LadderSelectsMatch | CameraExplorer/ArrayParameter.cs:411-418 | a ladder containing the device value selects an option carrying it |
| ArrayCatalog.LastMatchFound | CameraExplorer/ArrayParameter.cs:411-414 | once a rung equals the current value, the foreach ends on that rung or a later one |
| ArrayCatalog.ExposureTimeTracksCurrent | CameraExplorer/ArrayParameter.cs:351-368 | corrected exposure time: a device value of `1000000 / d` in range selects that shutter rung |
| ArrayCatalog.ExposureTimeAsWrittenSelectsAuto | CameraExplorer/ArrayParameter.cs:361 | the code as written selects Auto for [1000, 1000000] at 8000 us although the "1 / 125 s" rung is offered; the corrected population selects that rung |
| ArrayCatalog.FirstWith | CameraExplorer/ArrayParameter.cs:585-594 | the first option carrying a value, as a foreach that breaks on it finds it |
| ArrayCatalog.SceneDefault | CameraExplorer/ArrayParameter.cs:528-546 | the scene default is the first option that is Auto or is the last one, and exists exactly when there are options |
| ArrayCatalog.DefaultChoice | CameraExplorer/ArrayParameter.cs:581-599 | ladder and preset kinds choose the first option; flash and illumination the Auto option; focus range Normal; scene mode by its rule; `null` when absent |
| ArrayCatalog.SetDefault | CameraExplorer/ArrayParameter.cs:268-279 | resolutions write the first option without selecting it; other kinds select their default through the setter, and a missing default changes nothing |
| ArrayCatalog.DefaultIsAuto | CameraExplorer/ArrayParameter.cs:426-436 | after a supported refresh the ladder and preset kinds default to Auto |
| ArrayCatalog.DefaultExamples | CameraExplorer/ArrayParameter.cs:528-599 | flash options Off, Auto, On default to Auto; scene options Portrait, Sport default to the last one |
| Registry.Raise | CameraExplorer/Settings.cs:51 | the notification is raised without a null check, so with no subscriber it throws NullReferenceException |
| Registry.SetParameters | CameraExplorer/Settings.cs:21-26 | the setter replaces the collection and notifies "Parameters" once, or throws with no subscriber |
| Registry.Catalog | CameraExplorer/Settings.cs:35-48 | twelve parameters, each satisfying its family's invariant |
| Registry.Refresh | CameraExplorer/Settings.cs:29-52 | with no device the collection ends empty; with one it is exactly the catalog; then "Parameters" is raised once, which throws NullReferenceException when nobody subscribed |
| Registry.CatalogOrder | CameraExplorer/Settings.cs:35-48 | the parameters are named in the catalog order, scene mode first and focus illumination last |
| Registry.CatalogArraysUnpopulated | CameraExplorer/Settings.cs:35-48 | every array entry is kept unfiltered, with no options and both flags true |
| Registry.CatalogRangesRefreshed | CameraExplorer/Settings.cs:42-44 | flash power and exposure compensation sit at positions 5 and 7 and are supported exactly when readable |
| Registry.RefreshBuildsCatalog | CameraExplorer/Settings.cs:29-52 | with a device, Refresh yields the twelve named, valid parameters in order, none filtered out |
| Registry.RefreshForgetsPrevious | CameraExplorer/Settings.cs:31 | the previous collection has no influence on the result |
| Templates.SelectSettingsTemplate | CameraExplorer/SettingsTemplateSelector.cs:34-53 | unsupported or unmodifiable gives the unsupported template, else array or range by family; a non-parameter throws NullReferenceException |
| Templates.SelectOverlayTemplate | CameraExplorer/OverlayTemplateSelector.cs:32-43 | the overlay template exactly for a parameter whose image reads as non-null, "" included |
| Templates.OnSettingsContentChanged | CameraExplorer/SettingsTemplateSelector.cs:21-26 | the template follows the new content, or the exception escapes with the template unchanged |
| Templates.OnOverlayContentChanged | CameraExplorer/OverlayTemplateSelector.cs:20-25 | the template always follows the new content |
| Templates.OverlayIffCapable | CameraExplorer/OverlayTemplateSelector.cs:35-38 | a valid parameter gets the overlay template exactly when it is overlay-capable, which only array kinds are |
| Templates.ArrayShownIffChoice | CameraExplorer/SettingsTemplateSelector.cs:38-43 | after a refresh an array parameter is shown with the array template exactly when supported with more than one option, never with the range template |
| Templates.RangeShownIffSpan | CameraExplorer/SettingsTemplateSelector.cs:38-47 | after a refresh a range parameter is shown exactly when readable with min different from max |
| Templates.CatalogOverlayFlags | CameraExplorer/Settings.cs:35-48 | which catalog positions are overlay-capable |
| Templates.RegistryOverlays | CameraExplorer/OverlayTemplateSelector.cs:32-43 | after Settings.Refresh each entry gets the overlay template exactly at those positions |
| Extensions.Remove | CameraExplorer/Extensions.cs:21 | String.Remove drops exactly the given span |
| Extensions.Insert | CameraExplorer/Extensions.cs:22-23 | String.Insert puts the text at the position and keeps the rest around it |
| Extensions.Step | CameraExplorer/Extensions.cs:19-24 | the index advances by two after an upper-case letter (the `i++` in the Insert call), else by one |
| Extensions.Visits | CameraExplorer/Extensions.cs:15-25 | the positions the loop reads lie in [i, Length), start at i, and are empty exactly when i is past the end |
| Extensions.VisitsStep | CameraExplorer/Extensions.cs:15-25 | each read position is followed by the one its step leads to |
| Extensions.EnumerationToParameterName | CameraExplorer/Extensions.cs:11-28 | the result is the input unchanged, since the Remove and Insert results are discarded; the scan reads only indices in [1, Length), each one or two past the last |
| Extensions.LowerTailReadsAll | CameraExplorer/Extensions.cs:15-25 | without capitals after the first character every position from 1 on is read |
| Extensions.SceneModeExample | CameraExplorer/Extensions.cs:15-25 | "SceneMode" reads positions 1-5, skips 6, reads 7 and 8 |
| Parser.UnknownLabels | CameraExplorer/PhotoCaptureDeviceParser.cs:198-210 | every label function is total: codes outside the enum, and red-eye flash, read "Unknown" |
| Parser.LabelsFollowMemberNames | CameraExplorer/PhotoCaptureDeviceParser.cs:290-320 | labels are the member names, except that scene Auto reads "None" and multi-word names gain a space |
| Parser.LastIndex | CameraExplorer/PhotoCaptureDeviceParser.cs:381-398 | the current value's position is the last equal entry, and none exactly when none is equal |
| Parser.LabelValues | CameraExplorer/PhotoCaptureDeviceParser.cs:381-398 | one label per possible value, in order; the current index is the last entry equal to the device value, unset when none is or the value is `null` |
| Parser.Labels | CameraExplorer/PhotoCaptureDeviceParser.cs:386 | one label per value, in order |
| Parser.ParseArrayProperty | CameraExplorer/PhotoCaptureDeviceParser.cs:373-401 | succeeds exactly when the list reads; its entries and current index as above; a `null` list throws NullReferenceException |
| Parser.ParseRangeProperty | CameraExplorer/PhotoCaptureDeviceParser.cs:403-430 | rejects min == max; copies min and max through unchecked `(int)(UInt32)`; the value is the device's, or min when it is `null`; `null` ranges throw, and so does the UInt32 unbox of a property boxed as Int32, whatever its values |
| Parser.ParseInt32RangeProperty | CameraExplorer/PhotoCaptureDeviceParser.cs:417-422 | corrected for an Int32-boxed property: returns exactly when the range reads, is not collapsed and fits Int32, carrying the device's own bounds and value; the error cases are those of the code as written |
| Parser.Int32UnboxOnlyFixesCast | CameraExplorer/PhotoCaptureDeviceParser.cs:417-422 | the as-written parse of an Int32-boxed property never returns, and the corrected parse differs from it only where it threw InvalidCastException |
| Parser.ExposureCompensationExample | CameraExplorer/PhotoCaptureDeviceParser.cs:191-194 | [0, 4] EV at 2: the code as written throws InvalidCastException; the corrected parse describes the range with value 2 |
| Parser.IsoStart | CameraExplorer/PhotoCaptureDeviceParser.cs:248 | the ladder starts at the minimum, but never below 100 |
| Parser.Doublings | CameraExplorer/PhotoCaptureDeviceParser.cs:250-254 | the values lie in [start, max], start with the start value, and are empty exactly when it exceeds max |
| Parser.DoublingsDouble | CameraExplorer/PhotoCaptureDeviceParser.cs:250-254 | each value is twice its predecessor |
| Parser.IsoLadder | CameraExplorer/PhotoCaptureDeviceParser.cs:241-257 | the loop yields the doubling ladder from `max(min, 100)`: in range, doubling, empty exactly when the start exceeds max |
| Parser.IsoLadderExamples | CameraExplorer/PhotoCaptureDeviceParser.cs:241-257 | [50, 150] gives [100]; [100, 800] gives 100, 200, 400, 800; [50, 99] gives nothing |
| Parser.ParseRangePropertyAsArray | CameraExplorer/PhotoCaptureDeviceParser.cs:432-462 | the ISO entries are the ladder's decimal texts; the current index is the last ladder value equal to the device value |
| Parser.Attempts | CameraExplorer/PhotoCaptureDeviceParser.cs:43-143 | eleven attempts in declaration order |
| Parser.CollectAppend | CameraExplorer/PhotoCaptureDeviceParser.cs:43-143 | the try blocks before and after a point are independent |
| Parser.CollectAllSucceed | CameraExplorer/PhotoCaptureDeviceParser.cs:43-143 | when every attempt returns, each value is added at its own position |
| Parser.Parse | CameraExplorer/PhotoCaptureDeviceParser.cs:43-143 | the collection keeps its previous entries and gains at most eleven |
| Parser.CollectSkipsFailure | CameraExplorer/PhotoCaptureDeviceParser.cs:45-52 | a failed block adds nothing and separates the blocks around it |
| Parser.FailureSkipsOnlyItself | CameraExplorer/PhotoCaptureDeviceParser.cs:43-143 | a failing property is skipped and every other one is added as if it had not been attempted |
| Parser.AttemptsNamed | CameraExplorer/PhotoCaptureDeviceParser.cs:43-143 | each successful attempt describes the property it was made for |
| Parser.ExposureCompensationNeverListed | CameraExplorer/PhotoCaptureDeviceParser.cs:43-51 | exposure compensation's attempt always throws, so Parse adds exactly what the other ten attempts add |
| Parser.AllReadableInOrder | CameraExplorer/PhotoCaptureDeviceParser.cs:43-143 | with the ten other properties readable, ten descriptions are added in declaration order, without exposure compensation |
| CameraSettingsModel.Ordinal | CameraExplorerUniversal/CameraExplorer/CameraExplorer.Shared/Models/CameraSettings.cs:13-18 | every flash mode's value is below the member count |
| CameraSettingsModel.FromOrdinal | CameraExplorerUniversal/CameraExplorer/CameraExplorer.Shared/Models/CameraSettings.cs:13-18 | the cast back from a value below the count is the inverse of the ordinal |
| CameraSettingsModel.NewSettings | CameraExplorerUniversal/CameraExplorer/CameraExplorer.Shared/Models/CameraSettings.cs:39 | zoom starts at 1, everything else at its default, nobody subscribed |
| CameraSettingsModel.Notify | CameraExplorerUniversal/CameraExplorer/CameraExplorer.Shared/Models/CameraSettings.cs:170-175 | the notification is delivered only with a subscriber and changes nothing else |
| CameraSettingsModel.Set | CameraExplorerUniversal/CameraExplorer/CameraExplorer.Shared/Models/CameraSettings.cs:39-127 | every setter stores its value and notifies its constant, even when unchanged; every other property keeps its value |
| CameraSettingsModel.SettersIndependent | CameraExplorerUniversal/CameraExplorer/CameraExplorer.Shared/Models/CameraSettings.cs:39-127 | after two setters both values hold (for different properties) and both constants are notified in order |
| CameraSettingsModel.NextFlashMode | CameraExplorerUniversal/CameraExplorer/CameraExplorer.Shared/Models/CameraSettings.cs:158-168 | the mode advances cyclically through the setter, so exactly one "FlashMode" is notified |
| CameraSettingsModel.FlashCycle | CameraExplorerUniversal/CameraExplorer/CameraExplorer.Shared/Models/CameraSettings.cs:158-168 | Auto goes to Off, Off to On, On to Auto; three presses return to the start with three notifications |
| CameraSettingsModel.MillisecondsComponent | CameraExplorerUniversal/CameraExplorer/CameraExplorer.Shared/Models/CameraSettings.cs:147 | `TimeSpan.Milliseconds` is always below 1000, whatever the length |
| CameraSettingsModel.TotalMilliseconds | CameraExplorerUniversal/CameraExplorer/CameraExplorer.Shared/Models/CameraSettings.cs:147 | `TimeSpan.TotalMilliseconds` converts back to exactly the ticks it came from |
| CameraSettingsModel.CopyWith | CameraExplorerUniversal/CameraExplorer/CameraExplorer.Shared/Models/CameraSettings.cs:134-156 | CopyFrom writes backing fields, notifies nothing, and copies the exposure fields only when supported |
| CameraSettingsModel.CopyFrom | CameraExplorerUniversal/CameraExplorer/CameraExplorer.Shared/Models/CameraSettings.cs:134-156 | the copy as written: no notification, and the exposure read is always below 1000 whatever the device's exposure |
| CameraSettingsModel.CopyFromTotalMilliseconds | CameraExplorerUniversal/CameraExplorer/CameraExplorer.Shared/Models/CameraSettings.cs:147 | corrected: the exposure is read as its total length in milliseconds |
| CameraSettingsModel.TotalMillisecondsRoundTrip | CameraExplorerUniversal/CameraExplorer/CameraExplorer.Shared/CameraSession.cs:268-270 | reading the exposure and writing it back gives the device its own exposure, truncated to whole milliseconds |
| CameraSettingsModel.CopyFromLosesSeconds | CameraExplorerUniversal/CameraExplorer/CameraExplorer.Shared/Models/CameraSettings.cs:147 | as written, 1.5 s is read as 500 and written back as 0.5 s; the corrected copy writes back 1.5 s |
| Session.NewSession | CameraExplorerUniversal/CameraExplorer/CameraExplorer.Shared/CameraSession.cs:45-51 | a new session has raised no events and has no stored device id |
| Session.SetState | CameraExplorerUniversal/CameraExplorer/CameraExplorer.Shared/CameraSession.cs:128-132 | the state is recorded and StateChanged carries that same state; nothing else changes |
| Session.Open | CameraExplorerUniversal/CameraExplorer/CameraExplorer.Shared/CameraSession.cs:74-109 | Init then Preview; a stored id is reused, otherwise the platform default and camera list are remembered |
| Session.Close | CameraExplorerUniversal/CameraExplorer/CameraExplorer.Shared/CameraSession.cs:111-126 | ends in Closed without a capture device, keeping the stored id and cameras |
| Session.TakePhoto | CameraExplorerUniversal/CameraExplorer/CameraExplorer.Shared/CameraSession.cs:184-191 | Capture then Preview when a capture device exists; after Close, Capture and then NullReferenceException with the state left at Capture; device unchanged |
| Session.ReopenKeepsDevice | CameraExplorerUniversal/CameraExplorer/CameraExplorer.Shared/CameraSession.cs:87-97 | the first open records the default id; a later open reuses it whatever the default has become |
| Session.LastMatching | CameraExplorerUniversal/CameraExplorer/CameraExplorer.Shared/CameraSession.cs:225-228 | the last camera whose id equals the active id ignoring case, none exactly when no id matches |
| Session.Successor | CameraExplorerUniversal/CameraExplorer/CameraExplorer.Shared/CameraSession.cs:230-237 | the id after position i is the next one cyclically (`i - Count + 1` is 0 at the end) |
| Session.NextDeviceId | CameraExplorerUniversal/CameraExplorer/CameraExplorer.Shared/CameraSession.cs:225-239 | the loop leaves the successor of the last match stored, or the stored id when nothing matches |
| Session.NextDeviceCycles | CameraExplorerUniversal/CameraExplorer/CameraExplorer.Shared/CameraSession.cs:225-237 | with case-distinct ids, the camera after index i is `Cameras[i+1]`, or `Cameras[0]` after the last |
| Session.NextDevice | CameraExplorerUniversal/CameraExplorer/CameraExplorer.Shared/CameraSession.cs:223-244 | NullReferenceException with nothing changed before the first Open, or after Close when there are cameras; otherwise Closed, Init, Preview, and the reopened device is the next camera, or the same one when nothing matches |
| Session.ApplyFlashMode | CameraExplorerUniversal/CameraExplorer/CameraExplorer.Shared/CameraSession.cs:290-306 | Auto sets auto flash and leaves Enabled; Off clears both; On clears auto and enables |
| Session.ApplyFlashModeRoundTrip | CameraExplorerUniversal/CameraExplorer/CameraExplorer.Shared/CameraSession.cs:290-306 | whatever state the control was in, it ends up standing for the mode applied |
| Session.FlashButtonDrivesDevice | CameraExplorerUniversal/CameraExplorer/CameraExplorer.Shared/CameraSession.cs:255-257 | NextFlashMode notifies "FlashMode", and the handler drives the control through Off, On, Auto in step |
| ExifOrientation.ExifCode | CameraExplorerUniversal/CameraExplorer/CameraExplorer.Shared/Utilities/CameraUtilities.cs:63 | every orientation has a tag value from 1 to 8 |
| ExifOrientation.FromExifCode | CameraExplorerUniversal/CameraExplorer/CameraExplorer.Shared/Utilities/CameraUtilities.cs:63 | exactly the values 1 to 8 name an orientation, and reading one back gives its value |
| ExifOrientation.ExifCodeRoundTrip | CameraExplorerUniversal/CameraExplorer/CameraExplorer.Shared/Utilities/CameraUtilities.cs:63 | tag values round-trip and distinct orientations never share one |
| ExifOrientation.ForDevice | CameraExplorerUniversal/CameraExplorer/CameraExplorer.Shared/Utilities/CameraUtilities.cs:63-79 | upright gives tag 6 (Rotate270); 90 CCW gives 1; 270 CCW gives 4; 180 CCW gives 8; flat gives 1 |
| ExifOrientation.HeldOrientationsDistinct | CameraExplorerUniversal/CameraExplorer/CameraExplorer.Shared/Utilities/CameraUtilities.cs:67-74 | the four held orientations get four different tags |
| ExifOrientation.NormalExactly | CameraExplorerUniversal/CameraExplorer/CameraExplorer.Shared/Utilities/CameraUtilities.cs:69-77 | the tag is Normal exactly for 90 CCW, face up and face down |
| Resolutions.NewResolution | CameraExplorerUniversal/CameraExplorer/CameraExplorer.Shared/Models/CaptureResolution.cs:12-16 | the constructor stores both dimensions unchanged |
| Resolutions.EqualsObject | CameraExplorerUniversal/CameraExplorer/CameraExplorer.Shared/Models/CaptureResolution.cs:23-32 | equal exactly to a resolution with the same width and height; null and other types never |
| Resolutions.EqualsEquivalence | CameraExplorerUniversal/CameraExplorer/CameraExplorer.Shared/Models/CaptureResolution.cs:23-32 | reflexive, symmetric and transitive, and equal exactly when the values are |
| Resolutions.Text | CameraExplorerUniversal/CameraExplorer/CameraExplorer.Shared/Models/CaptureResolution.cs:18-21 | "W x H" is at least five characters |
| Resolutions.TextRoundTrip | CameraExplorerUniversal/CameraExplorer/CameraExplorer.Shared/Models/CaptureResolution.cs:18-21 | the text reads back as the resolution it came from |
| Resolutions.TextIdentifies | CameraExplorerUniversal/CameraExplorer/CameraExplorer.Shared/Models/CaptureResolution.cs:18-32 | two resolutions have the same text exactly when they are Equal |
| Resolutions.TextExample | CameraExplorerUniversal/CameraExplorer/CameraExplorer.Shared/Models/CaptureResolution.cs:18-21 | 640 by 480 is "640 x 480" |

## Left out

- The physical device, asynchrony, threads and the UI are not modelled. The device is an oracle
  value, and `await`ed calls are synchronous steps. The async resolution write is the step between
  `Modifiable = false` and `Modifiable = true`.
- `dynamic` and `object` boxing are not modelled in general. Each property has a concrete type,
  and a value that does not fit the C# cast is an InvalidCast throw.
- Parser.ParseRangeProperty: of the boxed type it models only UInt32 against Int32, the two the
  range properties use. Values are checked against the UInt32 range rather than their own boxed
  type; an oracle reporting a UInt32-boxed property outside that range stands for a cast failure.
- Parser: the `Settings.ArrayParameter`, `Settings.RangeParameter` and
  `Settings.ArrayParameter.Value` types the older parser builds are not part of this model, since
  they belong to a revision that is not present. Their `DisplayName`, `UnitDisplayName`,
  `CurrentValue`, `Min` and `Max` setters are modelled as plain stores with no side effects.
- Doubles are modelled as reals: zoom, hue, focus range, exposure time and exposure compensation
  in `CameraSettings`. No rounding is modelled, except the `(int)` truncation when the exposure is
  written back.
- Enum values of the older parser are members or out-of-enum codes. The platform's numeric codes
  are not modelled.
- The `Action` closures that `ParseArrayProperty`, `ParseRangeProperty` and
  `ParseRangePropertyAsArray` attach are left out. They only call `SetProperty` later, and the
  model records no later call.
- Parser.IsoLadder: requires `max < 2^31`, under which the unchecked `minUInt32 *= 2` cannot wrap.
  For a larger max the doubling may wrap, and whether the `while` loop ends then depends on the
  bounds (it ends for [100, 3000000000], not for [100, 4294967295]), so that band is not modelled.
- Parser.ParseRangePropertyAsArray: requires `max < 2^31` for the same reason, because its value
  list is the doubling ladder of IsoLadder; ISO ranges reaching past 2^31 are not modelled.
- Resolution sizes are modelled as natural pixel counts. The platform's `Size` carries double
  `Width` and `Height`, and fractional or negative sizes, with their double formatting in the
  option labels and their double comparison in `Equals`, are not modelled.
- CollectionChanged events of the ObservableCollection `Settings.Refresh` fills are not modelled.
  Only the "Parameters" notification is.
- CameraSession: `SetPreviewResolutionForCaptureResolution` is left out because it compares
  aspect ratios as doubles.
- CameraSession: the EXIF re-encoding inside `Capture` is left out because it is image I/O.
- CameraSession: preview start and stop, and the view-finder, are left out because they are UI.
- CameraSession: the locked singleton `Instance` is left out because it is about concurrency.
- CameraSession: the device dispatch in `Settings_PropertyChanged` is left out, except the flash
  case, because it only forwards values to the device.
- Session.LastMatching: device ids are compared with ASCII-only lower-casing; .NET `ToLower()` is
  culture-sensitive Unicode lower-casing, which is not modelled.
- Session.NextDevice: after Close with no cameras the model closes and reopens; the source's Close
  would also stop a view-finder preview on the missing device, and the view finder is not modelled.
- Session.Open: its `Settings.CopyFrom(MediaCapture)` call is stated separately, as
  CameraSettingsModel.CopyFrom, which keeps the `.Milliseconds` read as written.
- CameraExplorer/TemplateSelector.cs is not part of this model. It targets nested
  `Settings.ArrayParameter` and `Settings.RangeParameter` types from a revision that is not
  present.
- CameraSettingsModel.CopyWith: the capture encoding, scene mode, white-balance preset and ISO
  preset are taken as the device readings. `GetCurrentCaptureResolution` is not part of this model.
- ArrayCatalog.Populate: its contract states only the invariant and the kind. The per-kind facts
  are in RefreshLadder, RefreshPresets and RefreshEnumerated.
- ArrayCatalog.RefreshEnumerated: assumes at most one supported value equals the current value.
  With a repeated value the foreach selects twice, and the second selection writes to the device.
  AddAll models that case, but the lemma does not state it.
- Resolutions.Text: the contract gives only a length bound. The format is stated by TextRoundTrip,
  TextIdentifies and TextExample.

## Findings

| source | as written | input that shows it | evidently intended | confidence | as-written member | corrected member |
|---|---|---|---|---|---|---|
| CameraExplorer/ArrayParameter.cs:361 | the rung is adopted only `if (selectedOption == null && ...)`, but `selectedOption` starts as the Auto option and is never null, so Auto is always selected | exposure-time range [1000, 1000000] us, device at 8000 us: Auto is selected although "1 / 125 s" is offered | select the rung equal to the device value, as the ISO and Kelvin ladders do | high, not executed | ArrayCatalog.ExposureTimeAsWrittenSelectsAuto | ArrayCatalog.ExposureTimeTracksCurrent |
| CameraExplorer/PhotoCaptureDeviceParser.cs:419 | every range property is unboxed as `(int)(UInt32)range.Min`, but exposure compensation is an Int32 property (CameraExplorer/RangeParameter.cs:149 reads it as `RangeParameter<Int32>`), so the unbox throws InvalidCastException, which the catch at line 49 swallows | exposure-compensation range [0, 4] EV at 2: nothing is added for it | unbox exposure compensation as `int` and list it | medium, not executed; rests on the platform boxing exposure compensation as Int32 | Parser.ExposureCompensationNeverListed | Parser.ParseInt32RangeProperty |
| CameraExplorerUniversal/CameraExplorer/CameraExplorer.Shared/Models/CameraSettings.cs:147 | `_exposureTime = ...ExposureControl.Value.Milliseconds` stores the 0-999 millisecond component of the TimeSpan | a 1.5 s exposure (15,000,000 ticks) is stored as 500. CameraSession.cs:269 writes it back as `new TimeSpan(0,0,0,0,500)`, which is 0.5 s | store `TotalMilliseconds`, the unit the write-back uses | medium, not executed | CameraSettingsModel.CopyFromLosesSeconds | CameraSettingsModel.TotalMillisecondsRoundTrip |
