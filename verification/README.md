# ec2pull inventory shaping, in Dafny

`ec2pull.py` is an Ansible dynamic-inventory script. It runs in one of two modes:

- **List mode** prints one JSON document for the running EC2 instances that its `ec2.instances.filter` query returns:
  - a `_meta.hostvars` dictionary that maps each private DNS name to the host record built by `instance_metadata`;
  - one list of DNS names per tag group. A tag `key = value` puts its host into the group `"tag_" + sanitize(key) + "_" + sanitize(value)`, and `sanitize` replaces every character of `[:_-./ ()]` by `_`.
- **Host mode** resolves a DNS name to an instance id through `dns_name_to_instance`, then prints that instance's host record.

This project models the part of the script that shapes that data. The instance records are given as input. Every attribute read of an instance is fixed in advance, and any read may raise.

The modules are:

- `Values`: attribute values, with None kept as `Null`. Also the attribute-read outcome, and the `Result` of a mode, where `ExitOne` means the script ends with `exit(1)`.
- `Instances`: the instance record, one field per attribute read, plus the tag list.
- `HostMetadata`: `instance_metadata`.
  - Its 28 assignments are kept as data (`Body`) and run by `Run`.
  - `InstanceMetadata` is the straight-line method, proved equal to that run.
  - The record is proved to hold exactly the keys assigned before the first raising read, each with the value its attribute gives.
  - Two quirks are modelled as written and stated: `ec2_platform` is written twice, so the raw value (None included) wins over `''`; and `ec2_ebs_optimized` is copied from `private_dns_name`.
- `Groups`: `sanitize` and group naming.
- `LastWinsDicts`: the dictionary a `for` loop of assignments builds. Each key is bound to its last occurrence.
- `TagDicts`: `tags2dict`.
- `Inventory`: the inventory document, the update made for one tag and for one instance, and `ListModeSpec`, the outcome of list mode as a function of the instances. The lemmas characterise that outcome:
  - it is `Ok` exactly when every DNS name and tag list can be read. boto3 gives `tags` as None for an untagged instance, and `tags2dict(None)` raises, so a single untagged running instance makes list mode exit with status 1 and print no inventory;
  - `hostvars` is last-wins by DNS name;
  - each group lists the instances in order, each once per tag of that instance that names the group;
  - `_meta` is never a group.
- `InventoryListing`: `list_mode` as a method with the source's two nested loops. The tag loop takes the keys in an unspecified order, and the method is proved equal to `ListModeSpec` whatever that order is.
- `HostLookup`: `dns_name_to_instance` and `host_mode`, as methods.

## Model

| member | source | states |
|---|---|---|
| Groups.Sanitize | ec2pull.py:187-188 | the result has the input's length; each of `: _ - . / space ( )` becomes `_`, every other character is kept |
| Groups.SanitizeOutput | ec2pull.py:187-188 | a sanitised string holds none of `: - . / space ( )`; its only separator is `_` |
| Groups.SanitizeIdempotent | ec2pull.py:187-188 | sanitising twice is sanitising once |
| Groups.SanitizeFixpoint | ec2pull.py:187-188 | a string is left unchanged exactly when its only separators are underscores |
| Groups.SanitizeConcat | ec2pull.py:187-188 | sanitising distributes over concatenation |
| Groups.GroupName | ec2pull.py:188 | the group name starts with `tag_` and is five characters longer than key and value together |
| Groups.GroupNameParts | ec2pull.py:188 | after `tag_` a group name holds the sanitised key, then `_`, then the sanitised value |
| Groups.GroupNameNotMeta | ec2pull.py:188 | no group name equals `_meta` |
| Groups.GroupNameOfSanitized | ec2pull.py:188 | a group name does not change when key and value are sanitised first |
| Groups.GroupNameExample | ec2pull.py:188 | the tag `Name = web-1` names the group `tag_Name_web_1` |
| Groups.GroupNameSeparatorsCollide | ec2pull.py:188 | keys that differ only in their separators (`a-b`, `a.b`) name the same group |
| Groups.GroupNameBoundaryCollides | ec2pull.py:188 | the tags `a_b = c` and `a = b_c` name the same group |
| LastWinsDicts.LastWins | ec2pull.py:319-320 | as in `tags2dict` and `dns_name_to_instance` (lines 209-210): the keys are exactly the keys of the pairs; a key's last occurrence gives its value |
| LastWinsDicts.LastOccurrence | ec2pull.py:319-320 | every key has a last occurrence, and that occurrence gives its value |
| LastWinsDicts.LastWinsSnoc | ec2pull.py:319-320 | one more pair is one more dictionary assignment |
| TagDicts.TagPairs | ec2pull.py:319-320 | the `(Key, Value)` pairs of the tag records, in order; a definition, whose ensures only spells the comprehension out pointwise; its contracts are `LastWins` and `TagMapLastWins` (no contract of its own) |
| TagDicts.TagMap | ec2pull.py:311-321 | the dictionary `tags2dict` returns, defined as the last-wins map of the records' pairs (no contract of its own) |
| TagDicts.TagMapLastWins | ec2pull.py:311-321 | the dictionary's keys are exactly the records' `Key`s; each maps to the `Value` of its last record |
| TagDicts.TagMapSnoc | ec2pull.py:319-320 | one more record overwrites its key with its value |
| TagDicts.Tags2Dict | ec2pull.py:311-321 | the loop returns the last-wins dictionary of the records |
| HostMetadata.KeyText | ec2pull.py:228-273 | every key of the host record starts with `ec2_` |
| HostMetadata.KeyTextInjective | ec2pull.py:228-273 | distinct keys have distinct `ec2_` texts, so the 26 keys are 26 distinct dictionary keys |
| HostMetadata.Body | ec2pull.py:228-234 | assignments 1-7 as data: key, attribute read and None conversion of each, in source order (no contract of its own) |
| HostMetadata.BodyFromInstanceId | ec2pull.py:235-250 | assignments 8-14 as data, with both `platform` writes (no contract of its own) |
| HostMetadata.BodyFromPrivateDnsName | ec2pull.py:251-258 | assignments 15-19 as data (no contract of its own) |
| HostMetadata.BodyFromRootDeviceName | ec2pull.py:259-269 | assignments 20-24 as data (no contract of its own) |
| HostMetadata.BodyFromStateTransitionReason | ec2pull.py:270-273 | assignments 25-28 as data (no contract of its own) |
| HostMetadata.Run | ec2pull.py:226-278 | runs the assignments in order; the first raising read ends the run and the dictionary built so far is returned (no contract of its own) |
| HostMetadata.MetadataOf | ec2pull.py:225-278 | the record `instance_metadata` returns: the run from an empty dictionary (no contract of its own) |
| HostMetadata.Source | ec2pull.py:228-273 | the reference table of which attribute fills each key; `ec2_ebs_optimized` is filled from `private_dns_name` (no contract of its own) |
| HostMetadata.EmptyForNone | ec2pull.py:236-269 | the keys that store `''` for None: instance lifecycle, kernel id, ramdisk id, spot request id and SR-IOV support; not `ec2_platform`, whose last write is raw (no contract of its own) |
| HostMetadata.Expected | ec2pull.py:228-273 | the value each key should hold, from the reference table (no contract of its own) |
| HostMetadata.Stored | ec2pull.py:236-249 | a converting assignment stores `''` for None and the value otherwise; a plain one stores the value |
| HostMetadata.InstanceMetadata | ec2pull.py:225-278 | the 28 assignments in order, stopping at the first read that raises, return the record `MetadataOf` |
| HostMetadata.Keys | ec2pull.py:228-273 | the keys written, one per statement |
| HostMetadata.Reads | ec2pull.py:228-273 | the attribute reads made, one per statement |
| HostMetadata.Completed | ec2pull.py:226-276 | the statements before it all read successfully; the statement at that index raises |
| HostMetadata.RunKeys | ec2pull.py:226-278 | executing statements adds exactly the keys of the statements before the first raising read |
| HostMetadata.MetadataKeys | ec2pull.py:226-278 | the record holds exactly the keys assigned before the first raising read, a prefix of the assignment order |
| HostMetadata.RunAgrees | ec2pull.py:226-278 | statements that store the intended values keep every present key at its intended value |
| HostMetadata.FaithfulFromStateTransitionReason | ec2pull.py:270-273 | assignments 25-28 store their intended values |
| HostMetadata.FaithfulFromRootDeviceName | ec2pull.py:259-269 | assignments 20-24 store their intended values |
| HostMetadata.FaithfulFromPrivateDnsName | ec2pull.py:251-258 | assignments 15-19 store their intended values |
| HostMetadata.FaithfulFromInstanceId | ec2pull.py:235-250 | assignments 8-14 store their intended values; the raw `platform` write at line 250 overrides the converted one |
| HostMetadata.BodyFaithful | ec2pull.py:228-273 | all 28 assignments store their intended values |
| HostMetadata.MetadataAgrees | ec2pull.py:226-278 | every key of the record, partial or not, holds its attribute's value; None becomes `''` for the five converted keys only |
| HostMetadata.MetadataIrregularKeys | ec2pull.py:232-250 | `ec2_platform` holds the raw value, None included; `ec2_ebs_optimized` holds `private_dns_name`; `ec2_kernel_id` holds `''` for None |
| HostMetadata.RunAllGot | ec2pull.py:226-273 | with no raising read, every key written, or present before, ends up in the record |
| HostMetadata.WritesFromStateTransitionReason | ec2pull.py:270-273 | assignments 25-28 write their keys and complete when their reads succeed |
| HostMetadata.WritesFromRootDeviceName | ec2pull.py:259-269 | assignments 20-24 write their keys and complete when their reads succeed |
| HostMetadata.WritesFromPrivateDnsName | ec2pull.py:251-258 | assignments 15-19 write their keys and complete when their reads succeed |
| HostMetadata.WritesFromInstanceId | ec2pull.py:235-250 | assignments 8-14 write their keys and complete when their reads succeed |
| HostMetadata.BodyWrites | ec2pull.py:228-234 | assignments 1-7 write their keys and complete when their reads succeed |
| HostMetadata.BodyCompletes | ec2pull.py:228-273 | when no attribute read raises, every assignment completes |
| HostMetadata.BodyWritesEveryKey | ec2pull.py:228-273 | each of the 26 keys is assigned by some statement |
| HostMetadata.MetadataComplete | ec2pull.py:228-273 | when no read raises, the record holds all 26 keys (26 distinct `ec2_` names, by `KeyTextInjective`), each with its intended value |
| Inventory.EmptyInventory | ec2pull.py:284-285 | the empty inventory has only `_meta`, with no host records |
| Inventory.AddHostToGroup | ec2pull.py:188-194 | an existing group gets the DNS name appended, with no de-duplication; a new group gets the single name; every other key is unchanged and `_meta` stays |
| Inventory.Repeat | ec2pull.py:189-194 | `n` copies of a DNS name |
| Inventory.AddToGroups | ec2pull.py:186-194 | the order-free effect of the tag loop: each tag's group gets the DNS name once per tag naming it, after its existing hosts (no contract of its own) |
| Inventory.AddToGroupsNone | ec2pull.py:186 | before the tag loop runs, the inventory is unchanged |
| Inventory.GroupsOfAdd | ec2pull.py:186-194 | one more tag adds its own group to the groups named |
| Inventory.TagsIntoAdd | ec2pull.py:186-194 | one more tag counts once more for its group and for no other |
| Inventory.AddToGroupsStep | ec2pull.py:186-194 | processing any further tag, in any order, is one append to that tag's group |
| Inventory.AddToGroupsStepAt | ec2pull.py:188-194 | the same, for the entry of a single group |
| Inventory.AddToGroupsOther | ec2pull.py:188-194 | a group other than the tag's keeps its entry |
| Inventory.AddToGroupsSame | ec2pull.py:188-194 | the tag's group gains the DNS name once more |
| Inventory.Step | ec2pull.py:183-194 | one instance succeeds exactly when its DNS name and tags can be read; it then stores the metadata under its DNS name, overwriting an earlier entry |
| Inventory.GroupsKeepMeta | ec2pull.py:186-194 | tag insertions leave `_meta` unchanged and the inventory well formed |
| Inventory.ListModeSpec | ec2pull.py:166-197 | the outcome of list mode is a well-formed inventory or exit status 1 |
| Inventory.ListModePrefixStep | ec2pull.py:182-194 | one more instance records its host and then adds it to each of its tags' groups |
| Inventory.AllListableSnoc | ec2pull.py:182-185 | splitting off the last instance splits readability |
| Inventory.ListModeSnocOk | ec2pull.py:181-197 | list mode gets past the last instance exactly when it got past the earlier ones and can read that one |
| Inventory.Listable | ec2pull.py:184-185 | an instance list mode can process: its `private_dns_name` read succeeds and its `tags` is a list, not None and not raising (no contract of its own) |
| Inventory.ListModeOk | ec2pull.py:181-197 | list mode succeeds exactly when every DNS name and tag list can be read; otherwise it exits with status 1 |
| Inventory.HostPairs | ec2pull.py:182-184 | the (DNS name, record) pairs in instance order; a definition, whose ensures only spells the comprehension out pointwise; its contract is `ListModeHostVars` (no contract of its own) |
| Inventory.HostPairsSnoc | ec2pull.py:182-184 | the pairs of one more instance |
| Inventory.ListModeSnocHostVars | ec2pull.py:184 | the last instance's record overwrites its DNS name's entry |
| Inventory.ListModeHostVars | ec2pull.py:182-184 | `hostvars` maps every DNS name to the record of the last instance with that name |
| Inventory.GroupsOfCount | ec2pull.py:186-194 | a group is named by some tag exactly when some tag counts for it |
| Inventory.StepGroup | ec2pull.py:186-194 | one instance adds its DNS name to a group once per tag naming that group, after the group's earlier hosts |
| Inventory.GroupHosts | ec2pull.py:182-194 | the reference host list of a group: the instances in order, each DNS name once per tag of that instance naming the group (no contract of its own) |
| Inventory.ListModeGroups | ec2pull.py:182-194 | a group is present exactly when some tag names it; it lists the instances in order, each once per tag naming it |
| Inventory.ListModeEmpty | ec2pull.py:284-285 | no instances give exactly `{"_meta": {"hostvars": {}}}` |
| Inventory.ListModeExitPersists | ec2pull.py:181-197 | once an instance has made list mode exit, later instances do not change that |
| InventoryListing.ListMode | ec2pull.py:166-199 | the two nested loops over instances and tag keys, with the tag order left open, return `ListModeSpec` of the instances |
| HostLookup.NamePairs | ec2pull.py:209-210 | the (DNS name, id) pairs in instance order; a definition, whose ensures only spells the comprehension out pointwise; its contract is `NameLookup` (no contract of its own) |
| HostLookup.NamePairsSnoc | ec2pull.py:209-210 | the pairs of one more instance |
| HostLookup.Resolvable | ec2pull.py:210 | an instance `dns_name_to_instance` can process: both its `id` and its `private_dns_name` reads succeed (no contract of its own) |
| HostLookup.DnsNameToInstance | ec2pull.py:204-215 | exits with status 1 exactly when some id or DNS name read raises; otherwise returns the last-wins map from DNS name to id |
| HostLookup.NameLookup | ec2pull.py:204-215 | a name is found exactly when some instance carries it, and it maps to the id of the last such instance |
| HostLookup.HostMode | ec2pull.py:148-157 | returns the record of the instance the name resolves to; exits with status 1 when the map cannot be built, the name is missing, or the instance cannot be obtained |

## Left out

- `main`, `configure_args` and `start_logger` (ec2pull.py:84-141, 291-305) are left out. They cover argument parsing, logging setup, the `INSTANCEID` environment variable and choosing the mode.
- The boto3 session and resource setup and the `ec2.instances.filter` queries are left out. The instances are an input sequence, so the `instance-id` filter of list mode (lines 172-177) is not modelled. Iterating the collection can itself raise while boto3 fetches its pages lazily; that failure, which ends in exit status 1 (lines 195-197 and 211-213), is not modelled, since the input sequence cannot fail. As written, that filter limits list mode to at most the one instance named by `INSTANCEID`, and without `INSTANCEID` `main` fails at line 137 before list mode runs. The hostvars overwriting and the merging of groups across several instances that `ListModeSpec`, `ListModeHostVars` and `ListModeGroups` describe are therefore properties of `list_mode` as a function of its instance sequence, not output the script as written can produce.
- The HTTP request to the instance-metadata endpoint (line 103) is network I/O and is left out.
- JSON serialisation and printing (lines 159, 199) are left out. The modes return the dictionary as a value.
- The `--debug` re-raise in `host_mode` (lines 154-155) is left out. The model follows the non-debug path, which exits with status 1.
- Logging calls are left out.
- The unbound `instanceid` variable is not modelled. Only `instance_id` is assigned at line 103, yet `instanceid` is used at lines 137 and 175.
- Each attribute read of an instance has one fixed outcome. The source reads `private_dns_name` several times, and a read that could succeed once and raise later is not modelled.
- Python dictionary key equality across types is not modelled. For example, `True == 1` would merge those keys, while `Value`'s constructors are distinct.
- Tag records always carry `Key` and `Value`, and tag values are strings. The `KeyError` from a malformed record and the `TypeError` from sanitising a non-string value are not modelled. In list mode both would end in exit status 1.
- HostLookup.HostMode: `ec2.Instance(id)` is the parameter `describe`. It yields either the instance or a failure.
