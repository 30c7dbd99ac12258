# expire-ami, modelled in Dafny

`expire-ami.py` is an AWS Lambda function that expires old Jenkins Windows
slave machine images (AMIs). For every configured account it:

1. lists the account's images (`describe_images`);
2. keeps those whose name matches `jenkins-win-slave*` and builds an `Image`
   record for each, with its creation date, tags, id and the snapshot ids of its
   EBS block-device mappings (`get_slave_images`);
3. drops every record with a `Retain` tag (`remove_tagged_images`);
4. sorts the rest newest first and clears the `delete` flag of the first
   `NUMBER_TO_RETAIN` of them (`mark_newest_images`);
5. deregisters every image still marked, then deletes all of their snapshots
   (`delete_old_images`).

It then returns `{'statusCode': 200, 'body': ""}`.

The model follows that structure, one module per stage:

- `Images` holds the data. It has the raw description dictionaries, modelled as
  class `Description`, whose `Tags` entry discovery may write in place. It also
  has the `Image` helper objects, modelled as class `Image`, whose `delete` flag
  ranking clears in place.
- `Discovery`, `Exemption` and `Ranking` each pair a method with the source's
  loops with a value-level function that specifies it. For example,
  `GetSlaveImages` pairs with `Discover`, `RemoveTaggedImages` with `Untagged`,
  and `MarkNewestImages` with `SortNewestFirst`. Lemmas state what each
  function promises.
- `Deletion` has the EC2 client as a class, `Ec2Client`. The client keeps the
  log of calls made to the service, so every remote effect is a statement about
  that log.
- `Handler` composes the stages for a list of accounts. `HandlerRun` gives the
  calls a whole invocation makes and its outcome. `LambdaHandler` is proved to
  produce exactly those calls.
- `StringOrder` is Python's `str` comparison, which is how creation dates are
  compared.
- `Scenarios` holds worked runs on concrete listings.

Python's `sorted(..., reverse=True)` is stable. The model specifies it as
follows:
- the result is newest first;
- it is a permutation of the input;
- for every creation date, the entries with that date keep their input order.

`StableNewestFirstUnique` shows that these three properties determine the
result completely.

When an account has fewer than `NUMBER_TO_RETAIN` eligible images,
`mark_newest_images` indexes past the end of the sorted list and raises
`IndexError`. The remaining accounts are then not processed. The model keeps
this behaviour as a `Failure(IndexOutOfRange(n))` outcome. Clamping
`NUMBER_TO_RETAIN` to the list length would keep all of the images; the
code does not clamp, and the model follows the code.

## Model

| member | source | states |
|---|---|---|
| Images.Description.constructor | expire-ami.py:103-105 | a description object built from the service's reply reads back as exactly that reply |
| Images.Image.constructor | expire-ami.py:14-20 | a new record holds the given fields and starts out marked for deletion |
| Discovery.StartsWith | expire-ami.py:36 | the name test: `name` agrees with the prefix at every position of the prefix, and is at least as long |
| Discovery.PatternMatchIsPrefixTest | expire-ami.py:5 | `re.match` with `jenkins-win-slave*` succeeds on a name exactly when the name starts with `jenkins-win-slav` |
| Discovery.SnapshotIds | expire-ami.py:39-41 | the snapshot ids of the mappings that carry `Ebs`, in mapping order; there are at most as many as mappings |
| Discovery.SnapshotIdsMembership | expire-ami.py:39-41 | a snapshot id is collected exactly when some block-device mapping's `Ebs` names it |
| Discovery.SnapshotIdsAppend | expire-ami.py:39-41 | snapshot collection treats each mapping on its own (it distributes over concatenation) |
| Discovery.Record | expire-ami.py:37-46 | the record built for a matching description is marked for deletion, has no tags when the description had no `Tags` key, and has at most one snapshot per mapping |
| Discovery.Discover | expire-ami.py:34-47 | the records discovery builds, one per matching description in input order: at most one per description, each marked and with a matching name |
| Discovery.CollectSnapshots | expire-ami.py:35-41 | the inner loop returns the snapshot ids of the mappings that carry `Ebs`, in mapping order |
| Discovery.BuildRecord | expire-ami.py:37-46 | a missing `Tags` key becomes `[]` in the description itself; the fresh record holds the name, date, tags, id and snapshots, and is marked |
| Discovery.DiscoverMembership | expire-ami.py:34-46 | a record is produced exactly for each description whose name matches, and it is built from that description |
| Discovery.DiscoverAppend | expire-ami.py:34-46 | discovery distributes over concatenation, so output order is input order |
| Discovery.DiscoverAfterFillTags | expire-ami.py:37-38 | running discovery again on the updated descriptions builds the same records |
| Discovery.FillTags | expire-ami.py:37-38 | after discovery, every matching description has a `Tags` entry with unchanged contents, and non-matching ones are untouched |
| Discovery.ProgressSkip | expire-ami.py:34-36 | a description whose name does not match adds no record and is not changed |
| Discovery.Visit | expire-ami.py:36-46 | one loop step for a matching description: the loop invariant holds one step further, with one more fresh record |
| Discovery.GetSlaveImages | expire-ami.py:29-47 | the records read as `Discover` of the input, in input order; they are fresh and pairwise distinct objects; descriptions change only by gaining `Tags = []` |
| Exemption.HasRetainTag | expire-ami.py:57-59 | an image counts as tagged exactly when some tag has the key `Retain`, whatever its value |
| Exemption.Untagged | expire-ami.py:54-62 | the images without a `Retain` tag, in list order: no more than the input, each taken from it and untagged |
| Exemption.UntaggedMembership | expire-ami.py:50-62 | an image survives exactly when it was in the list and has no tag with key `Retain`, whatever the tag's value |
| Exemption.UntaggedAppend | expire-ami.py:55-61 | the filter distributes over concatenation, so it keeps list order |
| Exemption.UntaggedSubMultiset | expire-ami.py:50-62 | nothing is added or duplicated |
| Exemption.UntaggedIdempotent | expire-ami.py:50-62 | filtering twice drops nothing more |
| Exemption.UntaggedViews | expire-ami.py:50-62 | filtering the objects and then reading them equals filtering their values |
| Exemption.UntaggedDistinct | expire-ami.py:50-62 | distinct image objects stay distinct |
| Exemption.RemoveTaggedImages | expire-ami.py:50-62 | both loops (over images and over each image's tags) return exactly `Untagged` of the input |
| StringOrder.AtMost | expire-ami.py:69-71 | Python `<=` on `str`, the order `sorted` uses on creation dates: the empty string is below every string, and only the empty string is below it |
| StringOrder.AtMostAtFirstDifference | expire-ami.py:71 | when two strings differ, the code points at the first difference decide `<=` |
| StringOrder.AtMostTotal | expire-ami.py:69-71 | any two creation dates are comparable |
| StringOrder.AtMostTransitive | expire-ami.py:69-71 | the date order is transitive |
| StringOrder.AtMostAntisymmetric | expire-ami.py:69-71 | dates that compare both ways are equal |
| StringOrder.AtMostReflexive | expire-ami.py:69-71 | every date is `<=` itself |
| Ranking.Insert | expire-ami.py:69-71 | one insertion step of the stable newest-first sort: the result holds the list plus the new entry, one longer |
| Ranking.SortNewestFirst | expire-ami.py:69-71 | the sorted list is a permutation of the input |
| Ranking.InsertNewestFirst | expire-ami.py:69-71 | inserting into a newest-first list keeps it newest first |
| Ranking.SortNewestFirstOrdered | expire-ami.py:69-71 | the sorted list is newest first |
| Ranking.InsertCreatedAt | expire-ami.py:69-71 | insertion puts the new entry first among the entries with its date, and keeps the others' order |
| Ranking.SortNewestFirstStable | expire-ami.py:69-71 | the sort is stable: for every date, the entries with that date keep their input order |
| Ranking.CreatedAtMembership | expire-ami.py:69-71 | the per-date sublist holds exactly the entries with that date |
| Ranking.StableNewestFirstUnique | expire-ami.py:69-71 | two newest-first lists with the same per-date sublists are equal, so the three properties above pin down `sorted` |
| Ranking.SortViews | expire-ami.py:69-71 | sorting the objects and then reading them equals sorting their values |
| Ranking.SortDistinct | expire-ami.py:69-71 | distinct objects stay distinct through the sort |
| Ranking.Retained | expire-ami.py:69-73 | the entries the loop at line 72 reaches: `numberToRetain` of them, or the whole list when it is shorter, all taken from the input |
| Ranking.RetainedAreNewest | expire-ami.py:69-73 | no image left out of the first `numberToRetain` is newer than one in them |
| Ranking.MarkNewestImages | expire-ami.py:65-74 | it succeeds exactly when `numberToRetain <= len`; success returns the sorted list; failure is the index error at the list length; the first `numberToRetain` sorted entries, or all entries when it fails, are unmarked; every other flag is unchanged |
| Deletion.Ec2Client.constructor | expire-ami.py:100 | a new client has made no calls |
| Deletion.Ec2Client.DescribeImages | expire-ami.py:103-105 | the listing call is logged, and the reply comes back as fresh description objects |
| Deletion.Ec2Client.DeregisterImage | expire-ami.py:90-92 | logs one deregistration |
| Deletion.Ec2Client.DeleteSnapshot | expire-ami.py:94-96 | logs one snapshot deletion |
| Deletion.AmisToDelete | expire-ami.py:84-86 | the ids of the marked images, in list order; at most one per image |
| Deletion.SnapshotsToDelete | expire-ami.py:84-88 | the snapshots of the marked images, image after image; none when no image is marked |
| Deletion.DeletionRequests | expire-ami.py:89-96 | one call per marked image plus one per snapshot of a marked image; no deregistration comes after a snapshot deletion |
| Deletion.DeregisteredExactly | expire-ami.py:84-92 | an image id is deregistered exactly when some marked image has it |
| Deletion.SnapshotDeletedExactly | expire-ami.py:84-96 | a snapshot is deleted exactly when it belongs to some marked image |
| Deletion.AmisToDeleteMembership | expire-ami.py:84-86 | the collected ids are exactly those of marked images |
| Deletion.SnapshotsToDeleteMembership | expire-ami.py:84-88 | the collected snapshots are exactly those of marked images |
| Deletion.KeptImageRequestsNothing | expire-ami.py:85 | an unmarked image adds no call, wherever it is in the list |
| Deletion.AmisToDeleteAppend | expire-ami.py:84-86 | id collection distributes over concatenation |
| Deletion.SnapshotsToDeleteAppend | expire-ami.py:84-88 | snapshot collection distributes over concatenation |
| Deletion.CollectStep | expire-ami.py:84-88 | one more image extends the collected ids by its id, and the collected snapshots by its snapshots, exactly when it is marked |
| Deletion.CollectDeletions | expire-ami.py:82-88 | the first loop collects the marked ids and the concatenation of their snapshots, in list order |
| Deletion.DeregisterAll | expire-ami.py:89-92 | the second loop makes one deregistration per id, in order |
| Deletion.DeleteAllSnapshots | expire-ami.py:93-96 | the third loop makes one snapshot deletion per id, in order |
| Deletion.DeleteOldImages | expire-ami.py:77-96 | the client's log grows by exactly `DeletionRequests` of the list |
| Handler.Eligible | expire-ami.py:103-108 | the records left after discovery and exemption: at most one per listed description, each marked, with a matching name and no `Retain` tag |
| Handler.ClearFirst | expire-ami.py:72-73 | clearing flags keeps the list length |
| Handler.Ranked | expire-ami.py:109 | the records as ranking leaves them: as many as the eligible ones, with the first `k` of the newest-first order unmarked |
| Handler.AccountPlan | expire-ami.py:109-110 | the deletion calls for one account, or none when ranking fails; the deletion stage makes no listing call |
| Handler.AccountRequests | expire-ami.py:102-110 | every call made for one account, starting with the listing call |
| Handler.AccountListsOnce | expire-ami.py:103-110 | one account makes exactly one listing call, and makes it first |
| Handler.HandlerRun | expire-ami.py:99-114 | whenever a run succeeds, it returns status 200 with an empty body |
| Handler.EligibleMarked | expire-ami.py:29-62 | every record that reaches ranking is marked, matches the pattern, has no `Retain` tag, and comes from a listed description |
| Handler.SortedMarked | expire-ami.py:69-71 | the sorted eligible records are as many as the eligible ones, each marked and eligible |
| Handler.MarkedRetainsNewest | expire-ami.py:65-74 | after ranking, the record at sorted position `i` is unmarked exactly when `i < k`; no deleted record is newer than a kept one; apart from flags the records are the eligible ones |
| Handler.ClearFirstDeletesTail | expire-ami.py:72-96 | with all records marked, clearing the first `k` makes the deletion stage deregister exactly the records from position `k` on, and delete exactly their snapshots |
| Handler.AccountDeletesExactly | expire-ami.py:107-110 | in one account whose ranking succeeds, an image is deregistered, and a snapshot deleted, exactly when it belongs to a record past the `k` newest eligible ones |
| Handler.RetainNoneDeregistersAll | expire-ami.py:72-92 | with `k = 0`, exactly the eligible images are deregistered |
| Handler.SortedIds | expire-ami.py:69-71 | an id occurs in the sorted list exactly when some eligible record has it |
| Handler.AccountDeregistersOnlyEligible | expire-ami.py:102-110 | an account deregisters only images it listed that match the pattern and carry no `Retain` tag |
| Handler.HandlerDeregistersOnlyEligible | expire-ami.py:99-114 | the whole run deregisters only images some listing returned with a matching name and no `Retain` tag |
| Handler.HandlerSucceedsIff | expire-ami.py:102-114 | a run returns 200 exactly when every account has at least `NUMBER_TO_RETAIN` eligible images |
| Handler.HandlerFailure | expire-ami.py:102-110 | a failed run's error is the eligible count of an account that has too few |
| Handler.OutcomeStep | expire-ami.py:102-110 | the first account with too few eligible images ends the run with the index error at its count; otherwise the remaining accounts decide the outcome |
| Handler.HandlerRunStep | expire-ami.py:102-110 | accounts are handled one after another; a failing account ends the run |
| Handler.ListEligible | expire-ami.py:103-108 | listing, discovery and exemption log one listing call and yield fresh, distinct records whose values are the eligible ones |
| Handler.Rank | expire-ami.py:109 | ranking succeeds exactly when `k <=` the eligible count; on success the records read as the sorted eligible records with the first `k` unmarked |
| Handler.RankAndDelete | expire-ami.py:109-110 | the log grows by exactly the account's deletion calls, or by nothing when ranking fails |
| Handler.ExpireAccount | expire-ami.py:102-110 | one account's stages log exactly `AccountRequests`, and fail exactly when ranking does |
| Handler.LambdaHandler | expire-ami.py:99-114 | the handler's calls and outcome are exactly those of `HandlerRun` over the configured accounts |
| Scenarios.DeletionOrderExample | expire-ami.py:77-96 | for images A (marked, two snapshots), B (kept) and C (marked, no snapshots): deregister A, deregister C, then delete A's two snapshots |
| Scenarios.SampleRun | expire-ami.py:99-114 | a listing of five slave images (out of date order), a foreign image, and a newest slave image tagged `Retain`, with the default configuration: one listing; the three oldest deregistered, newest of them first; then their snapshots; status 200 |
| Scenarios.TooFewRun | expire-ami.py:102-110 | an account with one eligible image and `NUMBER_TO_RETAIN = 2`: the listing is made, nothing is deleted, and the run fails with the index error at 1 |

## Left out

- The boto3 client and the network. Each `describe_images` reply is a parameter: one listing per configured account. One `Ec2Client` object with a call log stands in for the client created at line 100 and the one created on each call at line 81. It is also the only place the remote calls are recorded.
- Errors raised by AWS: throttling, missing permissions, an image or snapshot that is already gone, and the like. Every remote call is modelled as succeeding.
- `KeyError` on a malformed description. A description without `Name`, `CreationDate`, `ImageId` or `BlockDeviceMappings`, an `Ebs` without `SnapshotId`, or a tag without `Key` cannot be expressed in the model's types.
- Regular expressions in general. Only the configured pattern is modelled, as the prefix test that `PatternMatchIsPrefixTest` shows it is equivalent to. `Config.namePrefix` takes any prefix.
- Timestamp parsing. `CreationDate` is compared as a string, as the script does.
- `Image.__str__` and `Image.__repr__`: they only format text for printing.
- The Lambda `event` and `context` arguments: the handler never reads them.
- Configuration. The three module constants are fields of `Config`, and `DefaultConfig` holds the script's values. `NUMBER_TO_RETAIN` is a natural number, so a negative value (for which `range` would be empty) is not modelled.
- Python's sort algorithm is not modelled step by step. `sorted` is modelled as a stable insertion sort, and the lemmas above characterise its result uniquely.
