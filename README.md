# OMEVV firmware and baseline profile helpers, modelled in Dafny

This project models the client-side logic of the Dell OpenManage Enterprise
integration for VMware vCenter (OMEVV) that manages firmware repository
profiles and baseline (compliance) profiles. It also models the compliance
filter script used by the firmware integration tests.

- `FirmwareProfile` (`OMEVVFirmwareProfile`) covers the create, modify and
  test-connection payload builders, the first-match lookup by `profileName`,
  the listing with an optional name filter, and the create, modify and
  test-connection calls.
- `BaselineProfile` (`OMEVVBaselineProfile`) covers the lookup by `name`, the
  job schedule built from a day list and a time, and the baseline payload. It
  resolves cluster names to entity ids and then to group ids, finds the
  repository id of a named profile, creates a baseline profile, and validates
  repository profile and cluster names.
- `FindComponent` (`find_component.py`) groups the compliance reports of one
  cluster by service tag. For each tag it lists the components whose update
  action matches the requested operation without regard to case. It then adds
  a `common` entry: the components that every entry shares.

Shared modules:

- `Values` holds Python values as decoded JSON (`Json`). A dict is
  `Obj = map<string, Json>` and `None` is `JNull`. The module also gives
  `dict.get`, truthiness and `str.join`, which raises TypeError on a non-str
  item.
- `Transport` models `omevv.invoke_request` as a function parameter
  `Invoke = Request -> Response`. A response is the `success` flag plus
  `json_data`, a list of records. Every operation returns an `Outcome`: the
  requests it sent, in order, and then either its value or the Python
  exception it raised (TypeError, KeyError, AttributeError, IndexError).
- `Lookup` holds the first-match search that both profile helpers perform.

The two searches and the compliance filter are loops in the source. Here they
are methods proved equal to specification functions (`Lookup.FirstWith`,
`FindComponent.Run`), and lemmas state what those functions mean. The other
helpers are straight-line code and comprehensions, with no loops, so they are
functions.

The required-parameter check of create and modify is documented as advisory:
the request is said to be sent anyway, with an error string that names the
missing parameters. The code does something else. It joins the `None` values
themselves, so a missing parameter raises TypeError and no request is sent.
The model follows the code; see "## Findings".

## Model

| member | source | states |
|---|---|---|
| `FirmwareProfile.CreatePayload` | plugins/module_utils/omevv_utils/omevv_firmware_utils.py:94-106 | the create payload always has profileName, protocolType, sharePath, profileType = "Firmware" and a shareCredential with exactly username, password and domain; it has a description key iff a description is given; every other value, and every credential value, is a str or null, so with the round trip below each None argument is sent as null |
| `FirmwareProfile.CreatePayloadRoundTrip` | plugins/module_utils/omevv_utils/omevv_firmware_utils.py:94-106 | the create payload loses nothing: reading it back gives every field as given, a missing description reading as missing |
| `FirmwareProfile.ModifyPayload` | plugins/module_utils/omevv_utils/omevv_firmware_utils.py:123-133 | the modify payload has exactly profileName, sharePath, a three-field shareCredential and, iff given, description; every value apart from the credential, and every credential value, is a str or null |
| `FirmwareProfile.ModifyIsCreateWithoutTypes` | plugins/module_utils/omevv_utils/omevv_firmware_utils.py:94-133 | the modify payload equals the create payload with protocolType and profileType removed, whatever the protocol |
| `FirmwareProfile.ConnPayload` | plugins/module_utils/omevv_utils/omevv_firmware_utils.py:149-158 | the test-connection payload has exactly protocolType, catalogPath, shareCredential and checkCertificate; checkCertificate is false; every credential field is a str, never None |
| `FirmwareProfile.ConnPayloadCredential` | plugins/module_utils/omevv_utils/omevv_firmware_utils.py:149-158 | each credential field is the given value, or "" when none is given; protocol and path agree with the create payload, and so does the whole credential when all three fields are given |
| `FirmwareProfile.SearchProfileName` | plugins/module_utils/omevv_utils/omevv_firmware_utils.py:160-174 | the loop with early return yields the first profile whose profileName is the query, or {} |
| `Lookup.FirstWithIsFirstMatch` | plugins/module_utils/omevv_utils/omevv_firmware_utils.py:171-174 | the lookup yields {} exactly when no record matches; otherwise it yields a matching record at an index before which none matches |
| `FirmwareProfile.GetFirmwareRepositoryProfile` | plugins/module_utils/omevv_utils/omevv_firmware_utils.py:49-65 | one GET of the profiles; a failed GET gives the empty list; with a non-empty name, {} exactly when no profile has it, else the first that has it; without a name, the whole list |
| `FirmwareProfile.TestConnection` | plugins/module_utils/omevv_utils/omevv_firmware_utils.py:176-184 | exactly one POST, to the test-connection URI with the connection payload, and its response is returned |
| `FirmwareProfile.NoneValues` | plugins/module_utils/omevv_utils/omevv_firmware_utils.py:220 | the collected list holds only None values, and is empty exactly when no parameter is None |
| `Values.Join` | plugins/module_utils/omevv_utils/omevv_firmware_utils.py:222 | `str.join` succeeds exactly when every item is a str, and otherwise raises TypeError |
| `FirmwareProfile.CheckRequired` | plugins/module_utils/omevv_utils/omevv_firmware_utils.py:218-222 | the check passes exactly when no required value is None, and then leaves err_msg None; otherwise it raises |
| `FirmwareProfile.CreateFirmwareRepositoryProfile` | plugins/module_utils/omevv_utils/omevv_firmware_utils.py:218-229 | raises TypeError with nothing sent iff name, catalog path or protocol is None; otherwise exactly one POST of the create payload to /RepositoryProfiles, returning its response and no error |
| `FirmwareProfile.ModifyFirmwareRepositoryProfile` | plugins/module_utils/omevv_utils/omevv_firmware_utils.py:254-266 | raises TypeError with nothing sent iff name or catalog path is None; otherwise exactly one PUT of the modify payload to /RepositoryProfiles/<id>, returning its response and no error |
| `FirmwareProfile.CreateWithoutNameSendsNothing` | plugins/module_utils/omevv_utils/omevv_firmware_utils.py:218-228 | a create without a name: the join over [None] raises TypeError, and no request is sent |
| `FirmwareProfile.ModifyWithoutPathSendsNothing` | plugins/module_utils/omevv_utils/omevv_firmware_utils.py:254-264 | a modify without a catalog path raises before its PUT |
| `FirmwareProfile.MissingNames` | plugins/module_utils/omevv_utils/omevv_firmware_utils.py:219-220 | corrected check: the listed names are exactly those of the parameters whose value is None |
| `FirmwareProfile.MissingNamesConcat` | plugins/module_utils/omevv_utils/omevv_firmware_utils.py:219-220 | corrected check: the missing names keep the parameters' order and list each once: a single parameter contributes its name iff its value is None, and the names of a concatenation are those of its first part followed by those of its second |
| `FirmwareProfile.MissingMessage` | plugins/module_utils/omevv_utils/omevv_firmware_utils.py:221-222 | corrected check: there is a message exactly when some parameter is missing, and it is "Required parameters such as: " followed by the missing names joined with ", " |
| `FirmwareProfile.CreateFirmwareRepositoryProfileIntended` | plugins/module_utils/omevv_utils/omevv_firmware_utils.py:218-229 | corrected create: the POST is always sent, once; the message is present exactly when name, catalog path or protocol is missing, and it is the corrected message over (name, catalog_path, protocol_type) in that order |
| `FirmwareProfile.ModifyFirmwareRepositoryProfileIntended` | plugins/module_utils/omevv_utils/omevv_firmware_utils.py:254-266 | corrected modify: the PUT is always sent, once; the message is present exactly when name or catalog path is missing, and it is the corrected message over (name, catalog_path) in that order |
| `FirmwareProfile.IntendedCreateNamesMissingName` | plugins/module_utils/omevv_utils/omevv_firmware_utils.py:218-229 | corrected create without a name: one request sent, and the message names exactly `name` |
| `BaselineProfile.SearchBaselineProfileName` | plugins/module_utils/omevv_utils/omevv_firmware_utils.py:479-493 | the loop with early return yields the first baseline profile whose name is the query, or {} |
| `BaselineProfile.GetBaselineProfiles` | plugins/module_utils/omevv_utils/omevv_firmware_utils.py:396-413 | one GET of the console's baseline profiles; the listed profiles, or none when the GET fails |
| `BaselineProfile.GetBaselineProfileByName` | plugins/module_utils/omevv_utils/omevv_firmware_utils.py:424-439 | {} exactly when no listed profile has the name; otherwise the first profile that has it |
| `BaselineProfile.JobSchedule` | plugins/module_utils/omevv_utils/omevv_firmware_utils.py:441-477 | no schedule iff the day list or the time is None or empty; otherwise seven day flags and the time copied; "all" sets every flag; otherwise a flag is set iff that exact day string is listed, and other strings are ignored |
| `BaselineProfile.BaselinePayload` | plugins/module_utils/omevv_utils/omevv_firmware_utils.py:509-521 | name, firmwareRepoId and groupIds always; description iff it is not None (even ""); jobSchedule iff it is a non-empty dict |
| `BaselineProfile.PayloadCarriesBuiltSchedule` | plugins/module_utils/omevv_utils/omevv_firmware_utils.py:509-521 | a schedule built by create_job_schedule reaches the payload exactly when one was built; an empty schedule dict is dropped while an empty description is kept |
| `BaselineProfile.CreateBaselineProfile` | plugins/module_utils/omevv_utils/omevv_firmware_utils.py:540-545 | exactly one POST of the caller's payload, unchanged, to the console's baseline URI; the advisory message is present iff the name, the repository id or the group id list is falsy |
| `BaselineProfile.EntityIds` | plugins/module_utils/omevv_utils/omevv_firmware_utils.py:355 | KeyError iff some cluster lacks a name, or is selected and lacks an entityId; otherwise the ids are exactly the entityIds of the clusters whose name is requested |
| `BaselineProfile.EntityIdsConcat` | plugins/module_utils/omevv_utils/omevv_firmware_utils.py:355 | the ids keep response order: the ids of a concatenation are the ids of its first part followed by those of its second |
| `BaselineProfile.GetClusterId` | plugins/module_utils/omevv_utils/omevv_firmware_utils.py:351-357 | one GET of the clusters; no ids when it fails; otherwise the entity ids of the selected clusters, or the KeyError of the comprehension |
| `BaselineProfile.Pluck` | plugins/module_utils/omevv_utils/omevv_firmware_utils.py:382 | KeyError iff some record lacks the key; otherwise the key's value of every record, in order |
| `BaselineProfile.GetGroupIdsForClusters` | plugins/module_utils/omevv_utils/omevv_firmware_utils.py:371-384 | the group POST is sent iff some cluster was selected, and carries exactly the selected ids; no ids when nothing is selected or the POST fails; otherwise the groupIds in response order |
| `BaselineProfile.GetRepoId` | plugins/module_utils/omevv_utils/omevv_firmware_utils.py:386-394 | with a non-empty name, the id of the first profile of that name, None when no profile has it; without a name a non-empty list comes back and `.get` raises AttributeError; a failed GET gives None |
| `BaselineProfile.InvalidNames` | plugins/module_utils/omevv_utils/omevv_firmware_utils.py:319 | a requested name is reported invalid exactly when it is not among the available names |
| `BaselineProfile.InvalidNamesConcat` | plugins/module_utils/omevv_utils/omevv_firmware_utils.py:319-322 | the invalid names keep request order and duplicates: a single name is reported as itself iff unavailable, and the invalid names of a concatenation are those of its first part followed by those of its second, so the message lists them in the order requested |
| `BaselineProfile.Column` | plugins/module_utils/omevv_utils/omevv_firmware_utils.py:316 | the extracted list has one `get(key)` value per record, in order |
| `BaselineProfile.ValidateClusterNames` | plugins/module_utils/omevv_utils/omevv_firmware_utils.py:307-324 | one GET of the clusters; no message exactly when every requested name is the name of some listed cluster; otherwise the message lists the invalid names |
| `BaselineProfile.ValidateRepositoryProfile` | plugins/module_utils/omevv_utils/omevv_firmware_utils.py:283-297 | one GET of the profiles; no message exactly when some profile's `get('profileName')` equals the argument, so None matches a profile without a name; otherwise the invalid-profile message |
| `FindComponent.Find` | tests/integration/targets/omevv_firmware/tests/find_component.py:9-20 | the nested loops that update the result dict in place compute the fold `Run`; the lemmas below say what it holds |
| `FindComponent.IntersectValues` | tests/integration/targets/omevv_firmware/tests/find_component.py:18-19 | intersecting one entry's set with every other entry's set gives the intersection of all; an empty dict raises IndexError |
| `FindComponent.MatchingMembers` | tests/integration/targets/omevv_firmware/tests/find_component.py:14-16 | a name is listed for a report exactly when some component whose updateAction matches the operation, ignoring case, has it as sourceName |
| `FindComponent.MatchingConcat` | tests/integration/targets/omevv_firmware/tests/find_component.py:14-16 | the listed names keep input order and multiplicity: a single component contributes its source name exactly once when its action matches and nothing otherwise, and the list for two consecutive runs of components is the first run's list followed by the second's |
| `FindComponent.LastReportWins` | tests/integration/targets/omevv_firmware/tests/find_component.py:13-17 | a service tag's entry is the list of the last report with that tag; a later report replaces the earlier list, and lists are never merged |
| `FindComponent.OtherTagsUntouched` | tests/integration/targets/omevv_firmware/tests/find_component.py:13-17 | keys that no report carries keep their earlier entry, or stay absent |
| `FindComponent.CommonIsIntersection` | tests/integration/targets/omevv_firmware/tests/find_component.py:18-19 | for a non-empty dict, common as a set is the intersection of the sets of all entries |
| `FindComponent.VisitSetsCommon` | tests/integration/targets/omevv_firmware/tests/find_component.py:18-20 | after a matching cluster, common is the intersection over every entry present, an earlier common entry included; if the dict is still empty, IndexError |
| `FindComponent.OnlyRequestedClusterCounts` | tests/integration/targets/omevv_firmware/tests/find_component.py:10-11 | only entries whose cluster equals the given name contribute: the run on the input equals the run on those entries alone |
| `FindComponent.NoEntryNoResult` | tests/integration/targets/omevv_firmware/tests/find_component.py:9-11 | with no entry of the requested cluster, the result is the empty dict, without a common key |

## Left out

- `omevv.invoke_request` and the transport behind it (TLS, authentication, retries) are not modelled. The transport is a function parameter, so its answer to each request is arbitrary.
- `get_all_repository_profiles`, `get_firmware_repository_profile_by_id`, `delete_firmware_repository_profile`, `get_all_clusters` and `get_baseline_profile_by_id` each pass one request through with no logic of their own. They are modelled only where another operation uses them, inside the validations. Their URIs are `Transport.ProfileIdUri` and the console URI functions.
- `module.exit_json` in the two validations is the Ansible process exit. The model returns the failure message as a value instead.
- The truthiness test on the response object itself (`if not available_repo_profiles`, lines 287 and 312) is not modelled. It depends on a class outside this model.
- `sys.argv`, `json.loads`, `json.dumps` and `print` in `find_component.py` are I/O and are not modelled. The model takes the decoded input list and returns the result dict.
- FindComponent.Find: records whose `hostComplianceReports`, `componentCompliances` or `updateAction` key is missing are not modelled. There `.get` yields None, so iterating it raises TypeError and `None.lower()` raises AttributeError; in the model these fields are always present.
- FindComponent.Find: a report without `serviceTag` makes `None` a key of the result dict, and a component without `sourceName` adds `None` to its list. The script then finishes normally and writes the key as "null". Neither is modelled, because `HostReport.serviceTag` and `Compliance.sourceName` are typed `string`.
- FindComponent.SameAction: `str.lower` is modelled on ASCII letters only. Full Unicode case mapping is not.
- FindComponent.Find: the order of the `common` list is not modelled, because it comes from a Python set. The entry is a set. The script intersects starting from the first-inserted entry, and the model starts from any entry; set intersection does not depend on that choice.
- BaselineProfile.SearchBaselineProfileName: the profile name is a `string`. With `profile_name=None`, `d.get('name') == None` would match the first profile without a `name` key; that case is not modelled, since the argument is documented as a str. The same holds for `BaselineProfile.GetBaselineProfileByName` and `FirmwareProfile.SearchProfileName`.
- `URI` templating is plain concatenation. A vCenter UUID of None, which `str.format` renders as "None", is not modelled. The duplicated `TEST_CONNECTION_URI` constant has one value.

## Findings

| source | as written | input that shows it | evidently intended | confidence | as-written member | corrected member |
|---|---|---|---|---|---|---|
| plugins/module_utils/omevv_utils/omevv_firmware_utils.py:219-222 | `missing_params` collects the None values themselves, and `", ".join` over them raises TypeError before the POST at line 228 | create with name=None, catalog_path="c", protocol_type="p" | join the names of the missing parameters into err_msg, and still send the POST | high (not executed) | `FirmwareProfile.CreateWithoutNameSendsNothing` | `FirmwareProfile.CreateFirmwareRepositoryProfileIntended` |
| plugins/module_utils/omevv_utils/omevv_firmware_utils.py:255-258 | the same join over None values raises TypeError before the PUT at line 264 | modify with name="n", catalog_path=None | join the names of the missing parameters into err_msg, and still send the PUT | high (not executed) | `FirmwareProfile.ModifyWithoutPathSendsNothing` | `FirmwareProfile.ModifyFirmwareRepositoryProfileIntended` |
