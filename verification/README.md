# Linode Block Storage CSI driver: a verified model

The driver is a stateless CSI controller in front of the Linode API, and a node agent that
stages and publishes volumes, with optional LUKS encryption. Both change state outside
themselves by sequences of calls of which any may fail. This project models that state and
those programs, and proves what the driver keeps over whole runs and under faults.

## How the model is built

**Two styles, tied together.** Every RPC is a method on a class that mirrors the Go code
call by call (`ControllerServer` over `LinodeApi`, `NodeServer` over `HostOs`) and is proved
equal to a function from the old state, the request and the faults it meets to the new
state and the answer (`ControllerSpec`, `NodeSpec`). The properties are proved about those
functions, over sequences of calls of any length.

| module | content |
|---|---|
| `GoText`, `VolumeKeys`, `Sizes`, `Limits`, `DevicePaths`, `LuksContexts` | the encodings that join the two sides: volume keys and labels, GB and bytes, attachment limits, by-id paths, LUKS settings |
| `Faults`, `Cloud`, `ControllerSpec`, `ControllerServers` | the Linode API as a store, and the controller RPCs |
| `ControllerRuns`, `ControllerRetry`, `ControllerPlacement` | whole runs of controller RPCs: what each may change, retries, what success means, limits |
| `ControllerOutcomes` | the topology rule, the answer to a create, and the exact outcome of every controller RPC, without faults and under any |
| `ControllerRegions` | publishing does not depend on regions |
| `PublishRace` | ControllerPublish one API call at a time, interleaved with anything else |
| `NodeSpec`, `NodeServers` | mounts, directories, mappers and device contents, and the node RPCs |
| `NodeRuns`, `NodeRetry` | whole runs of node RPCs: no data lost, formatted at most once, retries, stage and unstage |
| `NodeOutcomes` | the exact outcome of every node RPC, without faults and under any |
| `EndToEnd` | from the answer to a create to what a node stages, searches and unstages |
| `WholeSystem`, `StagedData` | controller, all nodes and the orchestrator as one transition system |
| `StaleMappers` | what a mapper left open does to the next volume of the same name |

**Faults.** Each place where an RPC calls out is a site. A fault plan marks sites `Lost` (the
call failed and did nothing) or `Late` (it took effect and still reported failure). The
theorems quantify over every plan, except that some speak of a call without faults: the last
call in the retry theorems, the repeat in `RepeatedCreateSameAnswer`, the publish in
`ExhaustedExactly` and `PublishesAcrossRegions`, the undoing call in `StageThenUnstage`,
`CreatedThenStagedThenUnstaged` and `PublishThenUnpublish`, and the four calls of
`OldVolumeUnderNewName`. Where an outcome is given exactly, success is under every plan and the
codes of refusals are without faults; `FaultsOnlyFail`, of both sides, says that a fault changes
an answer only into a failure. A wait either succeeds with its condition true or fails.

**Strings** are Go byte strings, one `char` per byte. Integers are unbounded; 64-bit shifts,
wrap-around and `Atoi`'s range check are written out. The FNV-1a fallback for ids that do not
parse is an arbitrary function, part of the configuration.

**Concurrency.** A controller RPC is one step except in `PublishRace`: the CSI specification
(v1.11, RPC Interactions, "Concurrency") asks the orchestrator for one call per volume at a
time. Node RPCs hold one mutex, so each is one step.

## What is assumed of the environment

These are the bodies and contracts of `Cloud.LinodeApi` and `NodeServers.HostOs`, and `Legal`.

- Create is given a fresh non-negative id and keeps label, size, region and encryption; clone
  copies size, region and encryption of its source.
- Attach is rejected on an attached volume; detach of a detached one succeeds; resize sets the
  size; an attached volume has a non-empty path.
- Waiting for an attachment succeeds only if the attachment equals the one asked for.
- blkid reports a signature exactly when the device is not blank; a LUKS header opens only with
  the passphrase of its keyslot; opening a name that is in use is reported as such.
- FormatAndMount makes a file system only where there is none and mounts only the type asked
  for; a mapper in use by a mount cannot be closed; CleanupMountPoint unmounts and removes, and
  is a no-op on a missing path.
- In `WholeSystem`: a by-id path exists on a node only for a volume attached there; the
  orchestrator stages each volume at a path of its own and asks for an Unpublish only after the
  NodeUnstage succeeded.

## What the proofs say about the code

Places where the code does less than its comments or names suggest; the model follows the code.

- A volume key with a negative id does not parse back (`KeyRoundTrip`).
- `limit_bytes` is exceeded when `required_bytes` is larger; sizes that are not whole GiB are
  truncated, so the volume may be short by less than one GiB (`CapacityBounds`, `TruncationLoss`).
- A topology whose deciding segment names no region is served in the controller's own region, even
  if later segments name one (`NoRegionNamed`).
- k concurrent publishes can take a node to exactly limit + k - 1 volumes, and no further
  (`AttachBound`, `BoundIsReached`).
- The comment on getAndValidateVolume promises a region check. There is none: publishing answers
  and attaches the same wherever volumes and instances are, and attaches across regions whenever
  there is room (`PublishIgnoresRegions`, `PublishesAcrossRegions`).
- A create that finds a volume under its label returns it whatever its region and encryption, and
  for a clone reports a capacity that need not be its size; `CreatedFitsExactly` says exactly when
  the answer fits the request.
- NodeStage names the LUKS mapper after the requested volume name, NodeUnstage closes the mapper
  named after the label in the volume id. They agree only under the condition of
  `CreatedThenStagedThenUnstaged`; otherwise the mapper stays open and NodeUnstage reports success.
  The next volume of that name is then formatted, fails, and on the retry shows the old volume's
  data as its own (`OldVolumeUnderNewName`).
- An attempt that fails between writing the LUKS header and adding its keyslot leaves a device no
  retry can use (`StageRetriesConverge`, `HalfFormattedStaysUnusable`). Every other failure is
  repaired by a retry.
- A cipher without a `-` passes validation and makes luksFormat index out of range on a blank
  device (`StagePanicsExactly`).
- luksClose takes any failure to look up a mapper for "no longer active", so NodeUnstage can
  succeed with the mapper open (`UnstagedMeans`).
- formatLUKSVolume's comment speaks of LUKS formatting; what is checked is any signature at all,
  so a LUKS request on a plain file system fails and changes no data
  (`LuksRefusesPlainFileSystem`).
- A label's device paths are its own two names exactly when none of the components a `/` adds to
  it is empty, `.` or `..` (`PathsAreOwnExactly`); other labels can be cleaned into the path of any
  label (`CleanedLabelSharesPath`). Labels that survive share a path exactly when label and
  partition suffix spell the same text (`SharedPathExactly`).

## Model

Source paths are relative to the repository's root.

| member | source | states |
|---|---|---|
| `GoText.Cut` | pkg/linode-volumes/utils.go:82-85 | splitting at the first `-` succeeds exactly when there is one, and the parts rejoin to the string with no `-` in the first |
| `GoText.CutOfJoined` | pkg/linode-volumes/utils.go:82-85 | a joined pair is split where it was joined, however many `-` the second part holds |
| `GoText.AtoiExactly` | pkg/linode-volumes/utils.go:87-90 | the strings read as a number are exactly the digit strings, with or without one sign, whose value fits 64 bits, and they read as that value |
| `GoText.AtoiOfItoa` | pkg/linode-volumes/utils.go:87-90 | reading back a printed 64-bit integer gives that integer, for every such integer |
| `VolumeKeys.KeyRoundTrip` | pkg/linode-volumes/utils.go:81-94 | parsing a printed key gives its id and the first 32 bytes of its label, for every non-negative id and every label; for every negative id it fails |
| `VolumeKeys.PrintedKeyIsFixedPoint` | pkg/linode-volumes/utils.go:33-52 | what was parsed prints to the same string again, and the controller's and the node's decoders all see the same id and label in it |
| `VolumeKeys.MountSourceAgrees` | internal/driver/nodeserver_helpers.go:371-384 | getMountSource reads the label the key parser reads from every string the parser accepts, and accepts exactly the strings with a `-` |
| `VolumeKeys.LabelForIsTruncation` | pkg/linode-volumes/utils.go:104-119 | truncating twice (label, then prefix plus label) equals truncating prefix plus name once |
| `VolumeKeys.LabelCollision` | pkg/linode-volumes/utils.go:113-119 | two names share a label if and only if they agree on the bytes the prefix leaves room for |
| `VolumeKeys.ShortNamesKeepLabelsApart` | internal/driver/driver.go:64 | under the prefix cap, names that fit beside the prefix get equal labels only if they are equal |
| `VolumeKeys.LabelEqualsName` | internal/driver/controllerserver_helper.go:497-498 | exactly when a volume's label is the very name it was requested under, in terms of prefix and name |
| `Sizes.ConversionRoundTrip` | internal/driver/controllerserver_helper.go:37-43 | converting GB to bytes and back is the identity if and only if the figure survives the 64-bit shift |
| `Sizes.TruncationLoss` | internal/driver/controllerserver_helper.go:37-43 | converting bytes down and up loses less than one GiB, and nothing if and only if the count was whole GiB |
| `Sizes.CapacityClosedForm` | internal/driver/controllerserver_helper.go:351-404 | a range is refused exactly when both bounds are zero, one is negative, or the limit is positive and under 10 GiB; otherwise the choice is max(required, limit, 10 GiB) |
| `Sizes.CapacityExactly` | internal/driver/controllerserver_helper.go:351-385 | for every range or none: which are refused and for which reason, and the size otherwise, 10 GiB without a range |
| `Sizes.CapacityBounds` | internal/driver/controllerserver_helper.go:351-404 | what the request gets of what it asked: the limit is kept iff required does not exceed it, and the volume counted in whole GiB covers the required bytes under an exact condition |
| `Limits.LimitsAgree` | internal/driver/metadata.go:122-131 | the limit the node reports equals the limit the controller enforces for every 64-bit memory size that is not negative, and for exactly which negative ones |
| `Limits.LimitIsClampedAndMonotone` | internal/driver/limits.go:10-31 | the limit stays within 8 and 64, grows with memory, and is the GiB count in between |
| `Limits.LimitsExactly` | internal/driver/controllerserver_helper.go:143-151 | both limits in terms of the memory: one volume per GiB, at least 8 and at most 64, less the disks |
| `DevicePaths.GetDiskByIdPaths` | pkg/device-manager/device.go:62-75 | suffixing the array in place yields both by-id paths, each with the partition suffix when one is given |
| `DevicePaths.VerifyDevicePath` | pkg/device-manager/device.go:78-100 | the loop answers the first path that exists with every earlier one absent, fails at the first that cannot be examined, and reports none only if all are absent |
| `DevicePaths.FirstExistingIsSearch` | pkg/device-manager/device.go:91-99 | the search function meets that declarative description for every list and every file-system state |
| `DevicePaths.SearchIsUnique` | pkg/device-manager/device.go:91-99 | the description leaves only one answer |
| `DevicePaths.ByIdKeepsExactly` | pkg/device-manager/device.go:63-66 | path.Join keeps a name as it is under the by-id directory if and only if none of its components is empty, `.` or `..` |
| `DevicePaths.PathsAreOwnExactly` | pkg/device-manager/device.go:62-75 | a label's two candidates are its own two names if and only if it survives that cleaning, and otherwise neither is |
| `DevicePaths.FamilyOf` | pkg/device-manager/device.go:63-66 | a candidate path determines which of the two prefixes it carries, and hence the text of label and partition |
| `DevicePaths.SharedPathExactly` | pkg/device-manager/device.go:62-75 | two surviving labels, each with its partition, share a candidate if and only if label and partition suffix spell the same text, and then they share both |
| `DevicePaths.LabelsHaveDisjointPaths` | pkg/device-manager/device.go:62-75 | for a fixed partition no path is a candidate of two distinct surviving labels |
| `LuksContexts.CreateVolumeContext` | internal/driver/controllerserver_helper.go:531-553 | the map filled step by step holds the request's LUKS settings exactly when they are switched on, and the volume's region always |
| `LuksContexts.LuksContextRoundTrip` | internal/driver/luks.go:103-124 | fed to getLuksContext, that map gives back the request's name, cipher and key size, enabled iff the parameter is "true", for every request |
| `LuksContexts.Validate` | internal/driver/luks.go:67-87 | rejects iff enabled and some field is empty, and names each empty field and no other |
| `LuksContexts.CipherSplit` | internal/driver/luks.go:135-139 | the halves luksFormat finds are the only ones that rejoin to the cipher with no `-` in the first, found iff they exist; validation never depends on whether they do |
| `Cloud.LinodeApi.ListByLabel` | internal/driver/controllerserver_helper.go:223-232 | environment contract: a listing by label holds exactly the volumes of that label, once each, in any order |
| `ControllerServers.ControllerServer.GetRequestCapacitySize` | internal/driver/controllerserver_helper.go:351-385 | the branch structure of the Go code computes the capacity choice whose closed form is `Sizes.CapacityClosedForm` |
| `ControllerServers.ControllerServer.ValidVolumeCapabilities` | internal/driver/controllerserver_helper.go:409-431 | the scan accepts iff every capability is single-node-writer |
| `ControllerServers.ControllerServer.IsEncryptionSupported` | internal/driver/controllerserver_helper.go:303-327 | the scan answers yes iff the region's capability list contains "Block Storage Encryption" |
| `ControllerServers.ControllerServer.PrepareVolumeParams` | internal/driver/controllerserver_helper.go:468-527 | label, size, encryption and region of the volume to make; its own computation of the region obeys the shared topology rule |
| `ControllerServers.ControllerServer.GetContentSourceVolume` | internal/driver/controllerserver_helper.go:156-210 | the source to clone, accepted only in the region chosen by the same topology rule, which this function computes separately |
| `ControllerServers.ControllerServer.AttemptCreateLinodeVolume` | internal/driver/controllerserver_helper.go:215-250 | find by label, else clone or create: store and outcome equal the specification for every store and fault plan |
| `ControllerServers.ControllerServer.CreateAndWaitForVolume` | internal/driver/controllerserver_helper.go:557-591 | the size check and the wait after it, store and outcome |
| `ControllerServers.ControllerServer.CreateVolume` | internal/driver/controllerserver.go:62-113 | the whole RPC leaves the store and gives the answer of `CreateEffect`, under every fault plan |
| `ControllerServers.ControllerServer.DeleteVolume` | internal/driver/controllerserver.go:120-160 | the same for DeleteVolume, including success on an absent volume and refusal of an attached one |
| `ControllerServers.ControllerServer.CanAttach` | internal/driver/controllerserver_helper.go:104-126 | yes iff the node's attached volumes are fewer than the enforced limit |
| `ControllerServers.ControllerServer.CheckAttachmentCapacity` | internal/driver/controllerserver_helper.go:742-766 | refuses with ResourceExhausted iff there is no room, whether or not the second disk listing fails |
| `ControllerServers.ControllerServer.GetAndValidateVolume` | internal/driver/controllerserver_helper.go:684-710 | empty path iff detached, the volume's own path when on this node, an error in every other case |
| `ControllerServers.ControllerServer.ControllerPublishVolume` | internal/driver/controllerserver.go:167-237 | the whole RPC leaves the store and gives the answer of `PublishEffect`, under every fault plan |
| `ControllerServers.ControllerServer.ControllerUnpublishVolume` | internal/driver/controllerserver.go:246-301 | the same for ControllerUnpublishVolume |
| `ControllerServers.ControllerServer.ControllerExpandVolume` | internal/driver/controllerserver.go:447-495 | the same for ControllerExpandVolume |
| `ControllerServers.ControllerServer.ListEntries` | internal/driver/controllerserver.go:378-413 | the loop appends one entry per listed volume, in order |
| `ControllerServers.EntryDecodes` | internal/driver/controllerserver.go:379-405 | the ids in an entry decode to the volume itself and to the node it is attached to, no node is listed iff it is detached, and region and bytes are the volume's own |
| `ControllerRuns.CreateEffectIsLocal` | internal/driver/controllerserver.go:62-113 | a create touches at most one volume: it makes one under an unused label with the requested size, region and encryption (or a copy of the source), or keeps the one found |
| `ControllerRuns.DeleteEffectIsLocal` | internal/driver/controllerserver.go:143-153 | a delete removes only the volume named, and only while detached |
| `ControllerRuns.PublishEffectIsLocal` | internal/driver/controllerserver.go:167-237 | a publish attaches only the volume named, only if detached, to the node named, and only when that node has room |
| `ControllerRuns.UnpublishEffectIsLocal` | internal/driver/controllerserver.go:268-291 | an unpublish detaches only the volume named and only from the node named |
| `ControllerRuns.ExpandEffectIsLocal` | internal/driver/controllerserver.go:458-491 | an expand changes only the size of the volume named, and never downwards |
| `ControllerRuns.StepEffect` | internal/driver/controllerserver.go:62-495 | every RPC under every fault plan does one of these and nothing else |
| `ControllerRuns.SizesStayAboveMinimum` | internal/driver/controllerserver_helper.go:351-404 | over every run, if all volumes start at 10 GB or more then all stay so, clones included |
| `ControllerRuns.VolumeSurvives` | internal/driver/controllerserver.go:458-485 | over every run, a volume nobody deletes keeps label, region and encryption, never shrinks, and keeps its size unless expanded by name |
| `ControllerRuns.LabelsStayUnique` | internal/driver/controllerserver_helper.go:223-249 | over every run, labels stay unique if they start unique |
| `ControllerRuns.AttachedVolumeRefuses` | internal/driver/controllerserver.go:143-146 | deletion of an attached volume and its publication elsewhere fail with the store unchanged, and an unpublish from elsewhere changes nothing, under every fault plan |
| `ControllerRuns.AttachmentPersists` | internal/driver/controllerserver.go:275-279 | over every run without an unpublish that names both, an attached volume stays on its node, exists and does not shrink, and every rival call is refused |
| `ControllerRuns.EveryVolumeHasAnOrigin` | internal/driver/controllerserver_helper.go:487-511 | every volume of every reachable store was there before or was made in the region of the topology rule; a newly made one is encrypted iff asked, and then its region offers encryption |
| `ControllerOutcomes.RegionExactly` | internal/driver/controllerserver_helper.go:253-266 | the region of a request is the one its first preferred topology names, or its first requisite one when none is preferred, or else the controller's own, and no other |
| `ControllerOutcomes.PreferredComesFirst` | internal/driver/controllerserver_helper.go:253-263 | a region named by the first preferred segment wins whatever follows it and whatever is requisite; the first requisite one wins when nothing is preferred |
| `ControllerOutcomes.NoRegionNamed` | internal/driver/controllerserver_helper.go:489-495 | a deciding segment without a region, empty lists, or no topology lead to the controller's own region |
| `ControllerOutcomes.CreatedWhereItBelongs` | internal/driver/controllerserver_helper.go:196-206 | a volume a create makes, new or cloned, lies in that region and the answer says so, under every fault plan |
| `ControllerOutcomes.CreatedAnswer` | internal/driver/controllerserver_helper.go:531-631 | under every fault plan, the answer to a create carries the request's LUKS settings exactly when they are switched on, the volume's region, no partition, the bytes the range stands for, and the request's source iff it has one |
| `ControllerOutcomes.ContextHolds` | internal/driver/controllerserver_helper.go:540-549 | each setting is found under its own key |
| `ControllerOutcomes.CreateSucceedsExactly` | internal/driver/controllerserver.go:62-113 | a create succeeds if and only if the request is well formed, its range accepted, encryption, source and label can be served, and the calls it makes go through |
| `ControllerOutcomes.CreateRefusesExactly` | internal/driver/controllerserver_helper.go:436-575 | otherwise, without faults, it is refused with the code of the first condition that fails, and the store is unchanged |
| `ControllerOutcomes.DeleteExactly` | internal/driver/controllerserver.go:133-153 | a delete succeeds iff the volume is absent or detached (and its calls go through), and then exactly that volume is gone; otherwise it is refused as in use |
| `ControllerOutcomes.PublishExactly` | internal/driver/controllerserver.go:167-237 | a publish succeeds iff the volume is on the instance already, or is detached and fits (and its calls go through); every other case has its code and changes nothing |
| `ControllerOutcomes.UnpublishExactly` | internal/driver/controllerserver.go:268-291 | without faults every unpublish succeeds, also of a volume absent or attached elsewhere, and detaches the volume only from the node named |
| `ControllerOutcomes.ExpandExactly` | internal/driver/controllerserver.go:458-491 | an expand succeeds iff its range is accepted and is no less than the volume has; the volume then has that size, and refusals are Internal |
| `ControllerOutcomes.IdsExactly` | pkg/linode-volumes/utils.go:33-70 | an id is refused iff it is empty, stands for the number it parses to, and for its hash otherwise |
| `ControllerOutcomes.EmptyIdsAreRefused` | internal/driver/controllerserver_helper.go:646-656 | an empty id is an invalid argument to every RPC, under every fault plan |
| `ControllerOutcomes.FaultsOnlyFail` | internal/driver/controllerserver.go:62-495 | under every fault plan an RPC either does exactly what it does without faults or fails as Internal, or without a code while a publish waits |
| `ControllerRetry.RetriesConverge` | internal/driver/controllerserver.go:120-495 | Delete, Publish, Unpublish, Expand: after any number of attempts failing anywhere, one clean call ends in the store and answer of a single clean call |
| `ControllerRetry.CreateRetriesConverge` | internal/driver/controllerserver_helper.go:215-250 | the same for Create, under one of the ids offered: no second volume is ever made |
| `ControllerRetry.CreatedMeans` | internal/driver/controllerserver_helper.go:595-631 | a successful create names an existing, active volume with the request's label; reported capacity exceeds its size by less than one GiB and matches a listing's figure iff it is whole GiB |
| `ControllerRetry.CreatedFitsExactly` | internal/driver/controllerserver_helper.go:234-249 | a successful create's volume has the rule's region, the asked encryption, and for a clone the capacity reported, exactly when no volume carried the label or the one that did already had them |
| `ControllerRetry.DifferentNamesDifferentVolumes` | pkg/linode-volumes/utils.go:104-124 | over every run, creates under different names that fit beside the prefix never answer with the same volume id |
| `ControllerRetry.PublishedMeans` | internal/driver/controllerserver.go:196-235 | success means the volume is on the node at the path returned, nothing else changed, and a newly attached one had room |
| `ControllerRetry.UnpublishedMeans` | internal/driver/controllerserver.go:268-301 | success means the volume is not on that node, and nothing else changed |
| `ControllerRetry.DeletedMeans` | internal/driver/controllerserver.go:133-160 | success means the store without exactly that volume |
| `ControllerRetry.ExpandedMeans` | internal/driver/controllerserver.go:465-491 | success means the size is the capacity answered, truncated to GB, and nothing else changed; the loss is under one GiB, none iff whole GiB |
| `ControllerRetry.RepeatedCreateFindsVolume` | internal/driver/controllerserver_helper.go:234-242 | over a run, a later successful create under the same label answers with the same volume and makes none, unless it was deleted |
| `ControllerRetry.RepeatedCreateSameAnswer` | internal/driver/controllerserver_helper.go:571-575 | a clean repeat of a successful create gives the identical answer if and only if the volume still has the size it had |
| `ControllerRetry.InstancesAndRegionsStay` | internal/driver/controllerserver.go:62-495 | no run of RPCs changes instances or regions |
| `ControllerPlacement.NodeInfoIsUnderstood` | internal/driver/nodeserver.go:388-403 | what a node reports means the same to the controller: its id decodes to the instance, its limit is the one enforced, and its topology leads to its region |
| `ControllerPlacement.ExhaustedExactly` | internal/driver/controllerserver_helper.go:104-152 | a clean publish is refused for want of room iff the volume is detached and the node holds what NodeGetInfo reports; a volume already there is published however full the node is |
| `ControllerPlacement.AttachedArePlaced` | internal/driver/controllerserver.go:167-301 | over every run, what is attached to a node is within the orchestrator's own books for it |
| `ControllerPlacement.NeverExhausted` | internal/driver/nodeserver.go:388-397 | an orchestrator whose books stay within the reported limit never gets ResourceExhausted, over every run and fault plan |
| `ControllerRegions.PublishIgnoresRegions` | internal/driver/controllerserver_helper.go:673-710 | moving volumes and instances to any other regions changes neither the answer of a publish nor any attachment, under every fault plan |
| `ControllerRegions.PublishesAcrossRegions` | internal/driver/controllerserver.go:167-237 | a detached volume is attached to an instance in another region if and only if there is room |
| `PublishRace.AloneIsPublish` | internal/driver/controllerserver.go:167-237 | run without interruption, the small steps are the RPC: same store, same answer, every fault plan |
| `PublishRace.OtherRpcsAttachNothing` | internal/driver/controllerserver.go:62-495 | every RPC but Publish fits what the race allows of the rest of the world |
| `PublishRace.LostRace` | internal/driver/controllerserver_helper.go:786-794 | an attach that comes after another call attached the volume changes nothing and asks to be tried again; one whose volume is gone is an error |
| `PublishRace.AttachBound` | internal/driver/controllerserver_helper.go:104-126 | over every interleaving with at most k publishes in flight on a node, attached plus past-the-check never exceeds limit + k - 1 |
| `PublishRace.SerialPublishesStayWithinLimit` | internal/driver/controllerserver_helper.go:742-766 | with one publish in flight at a time the limit is never exceeded |
| `PublishRace.BoundIsReached` | internal/driver/controllerserver.go:205-215 | for every k there is an interleaving that attaches limit + k - 1 volumes, so the bound is exact |
| `NodeSpec.FindDevicePath` | internal/driver/nodeserver_helpers.go:166-190 | a path that is found exists and is one of the label's candidates |
| `NodeServers.NodeServer.FindDevicePath` | internal/driver/nodeserver_helpers.go:166-190 | the array-building and searching code finds that path |
| `NodeServers.NodeServer.EnsureMountPoint` | internal/driver/nodeserver_helpers.go:194-214 | not-a-mount-point verdict and the directory made when missing, under every fault plan |
| `NodeServers.NodeServer.BlkidValid` | internal/driver/luks.go:238-273 | the mapping of exit status 0, 2 or other, of a missing executable and of a failed start decides whether the device carries anything, and errs exactly when blkid gave no verdict |
| `NodeServers.NodeServer.LuksFormat` | internal/driver/luks.go:126-174 | header, keyslot and activation in order, with the host each failure leaves, and the panic on a cipher without `-` |
| `NodeServers.NodeServer.LuksOpen` | internal/driver/luks.go:176-208 | opens the mapper, or accepts one that already has the name |
| `NodeServers.NodeServer.LuksClose` | internal/driver/luks.go:210-236 | removes the mapper; a failed lookup counts as closed |
| `NodeServers.NodeServer.FormatLuksVolume` | internal/driver/nodeserver_helpers.go:316-348 | formats only a blank device, opens any other |
| `NodeServers.NodeServer.MountVolume` | internal/driver/nodeserver_helpers.go:277-309 | mounts the mapper for a LUKS request and the device otherwise |
| `NodeServers.NodeServer.NodeStageVolume` | internal/driver/nodeserver.go:191-272 | the whole RPC leaves the host and gives the answer of `Stage`, under every fault plan |
| `NodeServers.NodeServer.NodeUnstageVolume` | internal/driver/nodeserver.go:274-313 | the same for NodeUnstageVolume |
| `NodeServers.NodeServer.NodePublishVolume` | internal/driver/nodeserver.go:87-155 | the same for NodePublishVolume of a file system |
| `NodeServers.NodeServer.NodeUnpublishVolume` | internal/driver/nodeserver.go:157-189 | the same for NodeUnpublishVolume |
| `NodeServers.NodeServer.NodeGetInfo` | internal/driver/nodeserver.go:373-404 | node id, limit and topology segment of the instance, or Internal when the disk listing fails |
| `NodeRuns.LuksFormatShape` | internal/driver/luks.go:126-174 | the only hosts luksFormat can leave: untouched, header without keyslot, header with keyslot, mapper open; success means the last, under a name that was free |
| `NodeRuns.StageKeeps` | internal/driver/nodeserver.go:191-272 | a stage attempt, however it fails, overwrites no data, formats at most one device and only a blank one, and mounts nothing but the staging path |
| `NodeRuns.UnstageKeeps` | internal/driver/nodeserver.go:274-313 | an unstage attempt changes no device and adds no mount |
| `NodeRuns.PublishKeeps` | internal/driver/nodeserver.go:87-155 | a publish attempt changes no device and no mapper |
| `NodeRuns.StepKeeps` | internal/driver/nodeserver.go:87-313 | so does every node RPC under every fault plan: data, formats, mappers and soundness of the tables |
| `NodeRuns.SoundnessStays` | internal/driver/nodeserver.go:87-313 | over every run, mount points exist, mounted mappers are active, and active mappers rest on devices with a keyslot |
| `NodeRuns.DataIsNeverOverwritten` | internal/driver/nodeserver_helpers.go:316-348 | over every run, a LUKS header and its key, and a file system, once there, are there for good |
| `NodeRuns.FormatAtMostOnce` | internal/driver/nodeserver_helpers.go:331-345 | over every run each device is LUKS-formatted at most once, and never one that carried a signature at the start |
| `NodeRetry.StageRetriesConverge` | internal/driver/nodeserver.go:191-272 | after any attempts at a stage request, a clean call equals a single clean call if and only if the attempts did not leave a blank device with a header and no keyslot |
| `NodeRetry.LuksHalfFormatsExactly` | internal/driver/luks.go:150-161 | formatting leaves a header without a keyslot if and only if it gets to the header with usable settings and the header is written late, or written and the keyslot lost |
| `NodeRetry.StageHalfFormatsExactly` | internal/driver/nodeserver.go:223-265 | the same for a whole stage attempt under every fault plan, with what it takes to reach the device |
| `NodeRetry.HalfFormattingHappens` | internal/driver/luks.go:157-161 | and that it can arise on every blank device a clean LUKS stage would have served |
| `NodeRetry.HalfFormattedStaysUnusable` | internal/driver/luks.go:187-202 | over every run a header without a keyslot stays so and no mapper is ever open over it |
| `NodeRetry.UnstageRetriesConverge` | internal/driver/nodeserver.go:274-313 | after any attempts at an unstage, a clean call equals a single clean call, unconditionally |
| `NodeRetry.UnstagedMeans` | internal/driver/luks.go:210-236 | a successful unstage leaves no mount and no directory, and the mapper is still open iff its lookup failed while it was active |
| `NodeRetry.UnstageTables` | internal/driver/nodeserver_helpers.go:353-366 | an unstage removes at most its own mount and, once nothing is mounted over it, the mapper of its label |
| `NodeRetry.TargetRetriesConverge` | internal/driver/nodeserver.go:87-189 | NodePublish of a file system and NodeUnpublish converge after any attempts |
| `NodeRetry.PublishThenUnpublish` | internal/driver/nodeserver.go:105-188 | a published target shows the staging path's device, read-only iff asked, and unpublishing gives back the host but for the directory |
| `NodeRetry.StageThenUnstage` | internal/driver/nodeserver_helpers.go:353-384 | stage then unstage gives back the mount table always, and the mapper table iff no mapper was opened or its name is the label in the volume id |
| `EndToEnd.CreatedThenStagedThenUnstaged` | internal/driver/nodeserver_helpers.go:353-384 | the same from the answer to a create, whatever faults it met, with the condition in terms of label prefix, requested name and parameters |
| `EndToEnd.CreatedIsSoughtByLabel` | internal/driver/controllerserver_helper.go:604-607 | from the answer to a create, NodeStage searches exactly the two paths of the label the volume was created under |
| `EndToEnd.CreatedIsStagedEncrypted` | internal/driver/nodeserver_helpers.go:287-306 | from the answer to a create, a successful stage mounts the mapper of the requested name iff the create asked for LUKS, and the device itself otherwise |
| `NodeRetry.LuksStageMeans` | internal/driver/nodeserver_helpers.go:291-306 | a successful LUKS stage mounts its mapper and never the bare device; the mapper lies over the device found iff no other mapper had the name |
| `NodeRetry.LuksRefusesPlainFileSystem` | internal/driver/nodeserver_helpers.go:339-344 | a LUKS request on a plain file system fails with every device, mapper and mount as before |
| `NodeRetry.StagePanicsExactly` | internal/driver/luks.go:135-139 | under every fault plan, a stage reaches the index panic if and only if a LUKS request gets as far as a blank device, blkid answers, and the settings validate with a usable key size and a cipher without `-` |
| `NodeRetry.StagedTables` | internal/driver/nodeserver_helpers.go:277-309 | the exact mount and mapper tables after a successful stage of an unstaged volume |
| `NodeOutcomes.TargetExactly` | internal/driver/nodeserver_helpers.go:166-190 | which device a stage request gets to: the first present of the two paths of its label and of the partition its context names, under every fault plan, and the code when there is none |
| `NodeOutcomes.StageRefusesExactly` | internal/driver/nodeserver.go:202-228 | a malformed request, an id that does not parse and a device that is not there fail with their codes and change nothing |
| `NodeOutcomes.StageWithoutMounting` | internal/driver/nodeserver.go:238-257 | a mounted staging path is success with nothing done, block access makes the path and nothing else |
| `NodeOutcomes.StagedAsAsked` | internal/driver/nodeserver_helpers.go:134-160 | under every fault plan a successful stage mounts data of the type asked for, ext4 if none is, with the request's flags and nouuid exactly on xfs |
| `NodeOutcomes.PlainStageExactly` | internal/driver/nodeserver.go:223-265 | without encryption a stage succeeds iff the device is blank or carries a plain file system of that type, and its calls go through |
| `NodeOutcomes.CleanPlainStageExactly` | internal/driver/nodeserver_helpers.go:277-309 | the host it leaves, success or not: only a blank device is written to |
| `NodeOutcomes.LuksStageExactly` | internal/driver/nodeserver_helpers.go:277-348 | with encryption a stage succeeds iff the settings are complete, the device can be formatted or opened, the data behind it is empty or of the type asked for, and its calls go through |
| `NodeOutcomes.UnstageExactly` | internal/driver/nodeserver.go:274-313 | under every fault plan, when an unstage succeeds: a failed mapper lookup does not prevent it, any other failed call that matters does |
| `NodeOutcomes.CleanUnstageExactly` | internal/driver/nodeserver.go:286-312 | its host and answer without faults, including ids without a `-` and mappers in use elsewhere |
| `NodeOutcomes.PublishExactly` | internal/driver/nodeserver.go:98-154 | when a publish succeeds, and that it binds the staging path as ext4 with `bind`, and `ro` iff read-only |
| `NodeOutcomes.UnpublishExactly` | internal/driver/nodeserver.go:169-188 | an unpublish succeeds iff its ids are given and the cleanup goes through, and takes away mount and directory |
| `NodeOutcomes.FaultsOnlyFail` | internal/driver/nodeserver.go:87-313 | under every fault plan a node RPC either does exactly what it does without faults or fails as Internal, a failed mapper lookup in an unstage excepted |
| `NodeRetry.StageMappers` | internal/driver/luks.go:166-201 | the only mapper a stage attempt opens is its own name over its own device |
| `WholeSystem.FoundDeviceIsOwn` | internal/driver/nodeserver.go:223-228 | the device NodeStage finds for a volume's id is that volume's, and is attached to this node |
| `WholeSystem.InvHolds` | internal/driver/nodeserver.go:223-265 | every event of controller, nodes and orchestrator keeps the system invariant |
| `WholeSystem.StagedVolumesAreAttached` | internal/driver/controllerserver.go:167-301 | in every reachable state a staged volume exists and is attached to the node it is staged on, hence staged on no other; over all nodes no device is LUKS-formatted twice |
| `StagedData.DataInvHolds` | internal/driver/luks.go:196-201 | when mapper names equal labels and lookups do not fail in unstage, mounts and mappers keep resting on their own volumes, over every run |
| `StagedData.StagedDataIsOwn` | internal/driver/nodeserver_helpers.go:277-309 | in every reachable state of such a system, what is mounted at a volume's staging path is that volume's device, encrypted or not |
| `StaleMappers.TakenNameFails` | internal/driver/nodeserver_helpers.go:331-337 | a blank device under a taken mapper name is formatted with its keyslot all the same, and the stage fails |
| `StaleMappers.TakenNameIsTrusted` | internal/driver/luks.go:196-201 | the retry succeeds and mounts the mapper that has the name, whatever device it lies over |
| `StaleMappers.OldVolumeUnderNewName` | internal/driver/luks.go:196-201 | for any two volumes of one name, stage and unstage of the first and two stages of the second end with the second's staging path on its own device if and only if the label equals the name, and otherwise on the first's, under a success |

## Left out

- Block-mode NodePublish and mounts stacked on one path: repeated block publishes stack bind mounts, which a table with one mount per path does not show; NodeStage's block branch is modelled.
- The order in which CreateVolume, Publish and Expand interleave inside themselves, other than publishes on one node: every other RPC is one step.
- ListVolumes paging: page meaning belongs to the API client, and the next token is produced without knowing whether a next page exists; only the entries are modelled.
- NodeExpandVolume, NodeGetVolumeStats, ValidateVolumeCapabilities, capability listings and the identity service: one-branch facts.
- Volume tags, access modes beyond single-node-writer, error message texts, logging, metrics and tracing.
- Nil pointers inside API answers, and the nil dereference in the message of a failed wait for an active volume (controllerserver_helper.go:586).
- FNV-1a: an arbitrary function, so collisions between ids that do not parse are neither assumed nor excluded.
- udevadm triggering before the device search: its errors are only logged, and it changes nothing the search reads.
- Time: polling and timeouts are folded into waits that succeed or fail.
- The metadata service and the choice of region and instance by it: the controller's region and an instance's memory are parameters.
- cryptsetup, blkid and mount-utils internals, and mount options such as read-only on an unformatted disk: only the contracts listed above.
- NodeServers.NodeServer.NodePublishVolume: states file-system mode only, because block mode is left out.
- PublishRace.AttachBound: the disks of the instance do not change during the run, because the limit is a moving target otherwise.
- WholeSystem.StagedVolumesAreAttached: labels made during the run survive path cleaning and no partition is asked for, because otherwise two labels can share a path (`CleanedLabelSharesPath`, `SharedPathExactly`).
