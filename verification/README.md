# Operator activities for game players — a Dafny model

This project models the activity engine of `dingqinghui/activity`. Operators
publish time-limited activities into a process-wide registry. Each activity
is a configuration with a time mode, area and channel filters, optional
prerequisite tasks, a score-reward ladder, and per-day lists of templates.
There are three template kinds:

- sign-in: daily sign, claiming a day's reward, retroactive repair;
- condition/task: progress, finishing, claiming;
- shop: limited goods at a discount.

Each player owns a manager. The manager:

- admits the activities whose filters and time window fit the player;
- builds a player-side instance from the stored progress record;
- routes player commands to the right template;
- sweeps expired or withdrawn activities, mailing the rewards still unclaimed;
- resets tasks and repair counters when a day, week or month rolls over.

The model is functional. Every operation returns the new state together with
a list of effects, and effects come in two kinds:

- `Call(call, ok)` is a request to the game host (check cost, take cost,
  grant reward, send mail) together with the host's answer.
- `Notify(activityId, cmd, diff)` is a persistence notification carrying a
  progress diff.

The host is an oracle `Host = HostCall -> bool`. The following are explicit
inputs, collected in `PlayerMgr.Env`:

- the clock (`now`);
- the day-rollover policy (timezone and rollover hour);
- the area's open time;
- the registry contents;
- the runtime's map iteration orders;
- the reading of the code (`Env.code`).

Four places in the code have a defect (see "## Findings"). `Records.Variant`
names two readings of them. At those four places `AsWritten` does what the
code does, and `Corrected` applies the evidently intended repair. Every manager operation
takes the reading from `Env.code`:

- the sign template's claimable scan (`Activity.TemplateRewards`);
- the record of a taken score step (`PlayerMgr.ScoreClaim`);
- the shop's buy counter (`PlayerMgr.Apply`);
- the rollover's mail visitor (`PlayerMgr.ResetVisitorFor`).

The contracts of the manager hold under both readings. The lemmas named in
the Findings table show where the two readings part.

A Go runtime panic (a negative slice index, a nil record dereference) is an
explicit outcome: the error `IndexPanic`, the `Fetch.Panic` case, or a
`panicked` flag on a sweep.

Modules, following the source files:

| module | file | source |
|---|---|---|
| `Records` | records.dfy | protobuf messages and error values used by every file |
| `DayClock` | day_clock.dfy | tools.go, global/tools.go |
| `ActivityTime` | activity_time.dfy | activity_time_tool.go |
| `Registry` | registry.dfy | global_operate_activity.go |
| `TemplateBase` | template_base.dfy | player/player_base_template.go |
| `TemplateTable` | template_table.dfy | player_template_mgr.go |
| `ShopTemplate` | shop_template.dfy | player_template_shop.go |
| `TaskTemplate` | task_template.dfy | player/player_template_condition.go |
| `SignCommon`, `RootSign` | sign_common.dfy, sign_root.dfy | player_template_sign.go |
| `PlayerSign` | sign_player.dfy | player/template_sign.go |
| `Activity` | activity.dfy | player_activity.go |
| `PlayerMgr` | player_mgr.dfy | player_activity_mgr.go |

The two sign-in files share most of their code, and that code lives in
`SignCommon`. `RootSign` and `PlayerSign` hold the parts where they differ:

- In `RootSign`, signing grants nothing, and rewards are claimed per day.
- In `PlayerSign`, signing grants the next day's reward.
- `PlayerSign` allows one more signable day.
- `PlayerSign` has no daily repair cap.

Some behaviours of the code are easy to miss. The model keeps each of them:

- The registry's lookup (`getActivity`) never evicts an expired entry; it
  only hides it. Eviction happens only in `rangeAll`.
- A new activity keeps the raw configuration. Its open and close tests read
  the raw `startTime`, `endTime` and `closeDuration`, while admission uses the
  resolved window. An activity relative to the registration time can
  therefore be admitted and then swept on the next check
  (`PlayerMgr.RelativeActivitySweptOnArrival`).
- The open-activity walk stops at the first activity that is not open.
- A batch add stops at the first activity already held.
- A sign reward is marked as claimed before it is granted, so a refused
  grant still consumes the claim.

## Model

| member | source | states |
|---|---|---|
| DayClock.DayOf | tools.go:36-43 | the day number of a shifted instant, truncated toward zero: the instant lies within the day it names, for either sign |
| DayClock.DiffSelfIsZero | tools.go:36-51 | an instant is never on a different day from itself |
| DayClock.DiffAntisymmetric | global/tools.go:37-44 | swapping the two instants negates the day difference |
| DayClock.DiffMonotoneInNow | tools.go:36-43 | a later "now" never gives a smaller day difference |
| DayClock.DifferDayMeansLater | tools.go:49-51 | "a different day" holds exactly when the day difference is positive, and then the first instant is the later one |
| DayClock.NextDayAddsOne | tools.go:36-43 | moving "now" by 24 hours adds exactly one to the day difference |
| DayClock.SameBucketIsSameDay | global/tools.go:37-52 | two instants inside the same rollover-to-rollover day are the same day |
| DayClock.AgreesWithFloorDay | tools.go:36-43 | after the epoch, the day difference equals the difference of floored day numbers |
| DayClock.TruncationDiffersFromFloorBeforeEpoch | tools.go:36-43 | before the epoch, truncating division puts two instants one second apart on the same day, while floored day numbers differ |
| ActivityTime.Moved | activity_time_tool.go:76-92 | every resolved field is the raw field plus the same offset |
| ActivityTime.NewActivityTime | activity_time_tool.go:29-118 | there is no resolution exactly for an unknown time mode; absolute mode uses the raw fields; register mode shifts them by the registration time; open-server mode shifts them by the area's open time |
| ActivityTime.ResolutionPreservesOrder | activity_time_tool.go:52-118 | the resolved close time comes from `closeDuration`; resolution keeps the distance and order between any two fields |
| Registry.ExpiryIsPermanent | global_operate_activity.go:192-197 | once an absolute-time activity has expired it stays expired, and an activity in any other mode never expires in the registry |
| Registry.BatchDelete | global_operate_activity.go:89-99 | the given ids are removed and nothing else, with one delete notification per removed configuration, in order |
| Registry.Delete | global_operate_activity.go:101-104 | exactly the given id is removed; the other entries are unchanged |
| Registry.GetActivity | global_operate_activity.go:167-185 | a configuration is found exactly when it is present and not expired; the lookup never changes the registry and reports nothing |
| Registry.AddCache | global_operate_activity.go:120-137 | adding succeeds exactly when no live entry holds the id; on success the id maps to the new configuration and one add notification goes out; on refusal nothing changes |
| Registry.AddKeepsValid | global_operate_activity.go:120-137 | adding keeps every entry stored under its own id |
| Registry.AddThenGet | global_operate_activity.go:120-185 | after a successful add, a lookup finds the new configuration unless it is already expired; after a refused add, the lookup finds the old one |
| Registry.DeleteThenGet | global_operate_activity.go:101-185 | after a delete, a lookup of that id finds nothing |
| Registry.RangeAll | global_operate_activity.go:139-165 | the walk visits each live configuration exactly once; afterwards the registry holds exactly the live entries; every expired entry is reported deleted, and nothing else is |
| Registry.FirstLiveSome | global_operate_activity.go:68-87 | during a reload, an id is loaded exactly when some unexpired configuration with that id is in the initial data |
| Registry.ExpiredOfMembers | global_operate_activity.go:68-87 | the reload's delete list holds exactly the expired configurations of the initial data |
| Registry.Init | global_operate_activity.go:68-87 | after a reload, the registry holds each id that has a live configuration and is not deleted by an expired duplicate, with the first live configuration of that id; every expired configuration is reported deleted |
| TemplateBase.ParameterCheck | player/player_base_template.go:107-115 | a template can be built exactly when both the configuration and the activity are present; a missing configuration is `ConfNil` |
| TemplateBase.Init | player/player_base_template.go:70-84 | stored progress is kept as it is; a template without stored progress gets its kind's initial record |
| TemplateBase.UpdateDiff | player_template_shop.go:109-121 | a template's save diff holds exactly one list with one slot, at the template's day and index, carrying the template's part of the record |
| TemplateBase.VisitAll | player/player_template_condition.go:111-130 | a task walk replaces each task that has a configuration by the visitor's version and leaves the tasks past the configuration alone; it asks for a save exactly when some visit did |
| TemplateBase.VisitAllCollects | player/player_template_condition.go:111-130 | a task walk collects the items of its visits in task order, and nothing else |
| TemplateTable.Register | player_template_mgr.go:34-36 | registering binds the type to the constructor and leaves the other types alone |
| TemplateTable.Construct | player_template_mgr.go:37-47 | a template is built only with a configuration; it sits at the requested place and keeps stored progress; shop and task templates without progress get their initial record; a sign template panics when it has no sign record |
| TemplateTable.NewTemplate | player_template_mgr.go:37-54 | without a configuration, or without a constructor for its type, there is no template; a built template carries the given configuration |
| TemplateTable.RegisterThenNew | player_template_mgr.go:34-47 | after registering a constructor for a type, a template of that type is built by it; a later registration replaces an earlier one |
| ShopTemplate.InitData | player_template_shop.go:38-44 | a new shop record has an empty, allocated buy-count map and no sign or task part |
| ShopTemplate.Costs | player_template_shop.go:78-84 | the price keeps each cost's item and order; with a discount between 0 and 100 each amount is at most its list amount, and a 100 discount leaves the price unchanged |
| ShopTemplate.Charge | player_template_shop.go:85-96 | the purchase goes through exactly when the host accepts the cost check, the debit and the grant, in that order; a refusal is reported with the refused call as the last effect |
| ShopTemplate.BuyCheck | player_template_shop.go:54-76 | goods can be bought exactly when the configuration and record exist, the index is in range, and a limited item is under its limit; each failure has its own error |
| ShopTemplate.Buy | player_template_shop.go:54-103 | a purchase succeeds exactly when the goods can be bought and the host accepts every charge; success raises the buy count of that limited item by one, changes no other count, and saves; failure changes nothing |
| ShopTemplate.BuyKeepsLimit | player_template_shop.go:54-103 | buying never takes a limited item's count past its limit |
| ShopTemplate.LimitOneBuysOnce | player_template_shop.go:54-103 | an item limited to one buys once; the second purchase is refused with the limit error and leaves the record as it was |
| ShopTemplate.BuyAsWritten | player_template_shop.go:54-103 | the code as written succeeds only for goods that can be bought, and keeps the record on any error |
| ShopTemplate.BuyAsWrittenAgreesWithBuy | player_template_shop.go:54-103 | the code as written is the corrected purchase, except that limited goods bought from a record with a nil counter map panic after all three host calls, with the record unchanged |
| ShopTemplate.AsWrittenPanicsAfterCharging | player_template_shop.go:85-100 | with a nil buy-count map, the code as written charges and grants and then panics; the corrected purchase succeeds and counts the buy |
| TaskTemplate.InitData | player/player_template_condition.go:38-53 | a new task record has one task in `Doing` with no progress per configured condition, and nothing without a task configuration |
| TaskTemplate.GetTaskInfo | player/player_template_condition.go:63-72 | a task is found exactly for an index inside the stored list; a negative index panics |
| TaskTemplate.FinishTask | player/player_template_condition.go:74-108 | claiming succeeds exactly when the task is `Finish` and the host grants its reward; the task becomes `Over` and the record is saved; each failure keeps the record and has its own error |
| TaskTemplate.FinishTaskIsOneShot | player/player_template_condition.go:74-108 | after a claim the same task is refused with a status error and is no longer claimable; the claimability of every other task is unchanged |
| TaskTemplate.RangeTasks | player/player_template_condition.go:111-130 | the walk applies the visitor to each configured task and saves exactly when some visit asked to |
| TaskTemplate.FinishedRewards | player/player_template_condition.go:132-154 | the list is the rewards of the finished tasks in task order, each task's rewards once |
| TaskTemplate.CanReceiveReward | player/player_template_condition.go:132-154 | the claimable list is the rewards of the tasks a claim would accept, in task order; an item is listed exactly when such a task has it |
| SignCommon.InitData | player_template_sign.go:47-68 | a new sign record has nothing signed, claimed or repaired, and one zeroed task per repair-rule condition |
| SignCommon.CanSignCount | player_template_sign.go:307-323 | the days that may be signed are the smaller of the signable day and the configured count |
| SignCommon.RepairCap | player_template_sign.go:325-340 | the repair cap is the smaller of the days before the signable day and the configured repair count |
| SignCommon.CheckSignCondition | player_template_sign.go:260-279 | signing is allowed exactly when configuration and record exist, it is a new day since the last sign, and fewer days are signed than may be |
| SignCommon.AddSignReward | player_template_sign.go:342-367 | the next day's reward is granted when the list has one for it; a day past the list grants nothing and succeeds |
| SignCommon.RuleCheck | player_template_sign.go:377-442 | a repair past the rules is free; an item rule charges the host on the spot; a task rule refuses while any of its tasks is `Doing` |
| SignCommon.VisitRules | player_template_sign.go:90-124 | the repair-rule tasks of each day are walked like a task list; a save is asked for exactly when some day's walk asked for one |
| SignCommon.VisitRulesCollects | player_template_sign.go:90-124 | a rule walk collects its per-day walks' items, day after day |
| SignCommon.RangeTasks | player_template_sign.go:90-124 | only the repair-rule tasks change; the template saves exactly when some visit asked for a save, and collects what the visits collected |
| RootSign.Sign | player_template_sign.go:176-205 | signing succeeds exactly when the sign check passes; it adds one signed day, stores the instant and saves; a failure changes nothing |
| RootSign.SignOncePerDay | player_template_sign.go:176-205 | after a sign, another sign on the same day is refused with `TodaySigned` and changes nothing |
| RootSign.SignStaysWithinCount | player_template_sign.go:176-205 | signing never takes the signed days past the open day or the configured count |
| RootSign.RewardConfByDay | player_template_sign.go:249-258 | reward lookup is 1-indexed: day d finds the d-th reward; a day past the list finds none; a day below 1 panics |
| RootSign.NextSignRewardIsDayReward | player_template_sign.go:342-367 | the reward granted after `n` signed days is the one the lookup gives for day `n + 1` |
| RootSign.GetReward | player_template_sign.go:221-247 | a day is claimed only when signed and not yet claimed; the claim is recorded before the host grants, so a refused grant still records it |
| RootSign.ClaimIsOneShot | player_template_sign.go:221-247 | after a claim, claiming the same day again is refused and changes nothing |
| RootSign.RepairCondition | player_template_sign.go:377-442 | a repair is refused at the total cap, then at the daily cap, and otherwise follows the next day's rule |
| RootSign.Repair | player_template_sign.go:281-305 | a repair succeeds exactly when its conditions hold and the reward is granted; it adds one signed day, one repair and one daily repair, and saves |
| RootSign.RepairStaysWithinCaps | player_template_sign.go:281-305 | repairing never takes the repair counts past the caps |
| RootSign.ResetEveryDayRepairCount | player_template_sign.go:369-375 | the reset zeroes only the daily repair count and saves |
| RootSign.ResetReopensDailyRepairs | player_template_sign.go:369-375 | after the reset, a repair is never refused for the daily cap when the cap is positive |
| RootSign.UnclaimedFrom | player_template_sign.go:444-456 | the code's scan of unclaimed days panics exactly when some unclaimed day in range has no reward entry below day 1; otherwise it lists the unclaimed days' rewards in day order |
| RootSign.CanReceiveRewardAsWritten | player_template_sign.go:444-456 | the code as written panics exactly when an unclaimed day from 0 on is out of the reward list's lower bound; otherwise it lists the unclaimed days' rewards from day 0 in day order |
| RootSign.AsWrittenPanicsOnDayZero | player_template_sign.go:444-456 | the code as written always panics on an unclaimed day 0 |
| RootSign.CanReceiveReward | player_template_sign.go:444-456 | the claimable rewards are the rewards of the signed, unclaimed days from 1 on, in day order; a missing record gives none |
| RootSign.CorrectedNeverPanics | player_template_sign.go:444-456 | a scan that starts at day 1 never panics and lists exactly the unclaimed days' rewards |
| RootSign.ClaimableDaysAreClaimable | player_template_sign.go:221-456 | every listed day can be claimed, and its reward is in the claimable list |
| PlayerSign.Sign | player/template_sign.go:159-180 | signing checks, grants the next day's reward, then adds one signed day; a refused reward changes nothing |
| PlayerSign.RepairCondition | player/template_sign.go:290-343 | a repair is refused only at the total cap, and otherwise follows the next day's rule |
| PlayerSign.Repair | player/template_sign.go:203-226 | a repair adds one signed day and one repair and never touches the daily repair count |
| PlayerSign.DailyCounterPlaysNoPart | player/template_sign.go:203-343 | the daily repair count neither affects nor is changed by a repair |
| PlayerSign.OneDayMoreThanRootVariant | player/template_sign.go:154-157 | with as many days signed as the open day, this variant still signs while the activity variant refuses |
| Activity.StoredAt | player_activity.go:135-144 | a stored record is found only below the list's size and in a present slot |
| Activity.SaveAt | player_activity.go:124-133 | saving sets one slot and keeps every other slot of the list |
| Activity.SaveTemplateData | player_activity.go:124-133 | saving touches one day's list only and keeps the other record fields |
| Activity.SaveThenGet | player_activity.go:124-144 | a saved record reads back, unless the index is past the list's size |
| Activity.SaveLeavesOtherReads | player_activity.go:124-144 | saving leaves the reads of other days alone, and those of other present indexes of the same day |
| Activity.SparseIndexReadsMissing | player_activity.go:124-144 | a record saved at index 3 of a fresh day reads back as missing |
| Activity.InitSlot | player_activity.go:183-188 | a built template sits at its place and shares its record with the stored list; a panic builds nothing; other slots are kept |
| Activity.InitDay | player_activity.go:109-122 | a day gets one template per configuration, each aliasing its stored slot |
| Activity.InitDayPlaces | player_activity.go:109-122 | each template built for a day sits at its own index and carries that index's configuration |
| Activity.BuildDays | player_activity.go:109-122 | every configured day is built, with as many slots as configurations, each template aliasing its record |
| Activity.NewActivity | player_activity.go:74-107 | an instance exists only for a live configuration with a known time mode; it keeps the stored id, scores and prerequisites and has one aliased template slot per configuration |
| Activity.PreConditionMet | player_activity.go:196-215 | with "all" every prerequisite task is out of `Doing`; otherwise one is; an empty list follows the fallback |
| Activity.FinishedPreCondition | player_activity.go:196-215 | the activity's prerequisites are met in the configured mode, and an empty list counts as met |
| Activity.Invalid | player_activity.go:223-232 | an activity is usable exactly when the prerequisites are met and it is open; each failure has its own error |
| Activity.OpenDayCountsFromStart | player_activity.go:240-242 | the start instant is open day 1 and each later day adds one |
| Activity.RawWindowIsResolvedForAbsoluteTime | player_activity.go:250-315 | for an absolute-time activity the raw open test is the resolved window and the raw expiry test is the resolved close |
| Activity.Concat | player_activity.go:260-273 | the flattened list holds exactly the templates of the listed days |
| Activity.GetTemplates | player_activity.go:260-273 | a nested activity offers today's templates only; otherwise every day's templates are offered |
| Activity.GetTemplate | player_activity.go:282-288 | a template is found exactly at an index of a present slot; a negative index panics |
| Activity.GetTypedTemplate | player_activity.go:409-454 | a typed lookup finds the template at the index only when it has the requested type |
| Activity.PutTemplate | player_activity.go:124-133 | writing a template back sets its slot and its stored record, and nothing else |
| Activity.PutKeepsAliased | player_activity.go:124-133 | writing back keeps every template equal to its stored record |
| Activity.ConcatReplace | player_activity.go:260-273 | replacing in every day and then flattening equals flattening and then replacing |
| Activity.PutIsReplace | player_activity.go:124-133 | writing back in place is a replacement of the old template in every day |
| Activity.OfferedSitsInSlot | player_activity.go:282-288 | every offered template sits in its own slot of the activity |
| Activity.WriteBackThenRead | player_activity.go:124-288 | after writing a changed template back, the same index finds it, and the activity's validity is unchanged |
| Activity.SetGotScoreRewardRecordAsWritten | player_activity.go:517-527 | the code as written records nothing when the score set is nil |
| Activity.SetGotScoreRewardRecord | player_activity.go:517-527 | after recording, the step counts as taken and every other step keeps its state |
| Activity.ScoreReward | player_activity.go:358-400 | a score step pays exactly when it is in range, not yet taken, and the host accepts the cost check and the grant; success records the step and saves; failure changes nothing |
| Activity.ScoreRewardIsOneShot | player_activity.go:358-387 | after a score claim, claiming the same step is refused with `ScoreIndexGot` |
| Activity.AsWrittenAgreesWithScoreMap | player_activity.go:517-527 | with a stored score set, the claim as written is the corrected claim |
| Activity.AsWrittenPaysScoreTwice | player_activity.go:517-527 | with a nil score set the code as written pays a step and records nothing, so it pays the same step again; the corrected claim refuses the second |
| Activity.ScoreRewardsFrom | player_activity.go:478-492 | the claimable score rewards are the rewards of the untaken steps whose cost the host accepts, in step order |
| Activity.CanReceiveScoreReward | player_activity.go:478-492 | the claimable score list is the rewards of the untaken steps whose cost the host accepts, in step order; an item is listed exactly when such a step has it |
| Activity.ScoreChecksFrom | player_activity.go:478-492 | the scan makes one score check per untaken step from the given one on, in step order, and no other host call |
| Activity.RewardsOf | player_activity.go:462-469 | a template list panics exactly when a slot is empty or a template's scan panics; otherwise it lists its templates' claimable rewards in list order |
| Activity.TemplateRewards | player_activity.go:462-469 | a sign template lists its unclaimed days' rewards in day order, from day 0 as written and from day 1 as corrected; only the scan as written panics, and it always does on an unclaimed day 0; a task template lists its claimable tasks' rewards; other kinds list nothing |
| Activity.CanReceiveReward | player_activity.go:462-469 | an activity's claimable list is its offered templates' rewards in list order followed by the claimable score rewards; it panics exactly when a template's scan does |
| Activity.PreVisit | player_activity.go:327-348 | the prerequisite tasks are walked with the visitor, collecting the visits' items in task order; one activity-level save of this activity is sent per visit that asked for a save |
| Activity.WalkOne | player/player_base_template.go:100-101 | only task and sign templates walk tasks; a walk keeps the template's place and configuration |
| Activity.WalkTemplates | player_activity.go:296-304 | the template walk panics exactly on an empty slot and keeps templates equal to their records; without a panic it collects each template's walk in list order |
| Activity.InUseHaveSlots | player_activity.go:260-273 | every offered template has a slot and belongs to this activity |
| Activity.RangeAllCondition | player_activity.go:327-348 | the prerequisites are walked first; an activity that is then unusable has its templates untouched; the items collected are the prerequisite visits' and then, for a usable activity, each offered template's walk, in order; records stay aliased |
| PlayerMgr.Admits | player_activity_mgr.go:455-486 | an empty filter admits everybody; otherwise the value must be listed |
| PlayerMgr.CheckAddCondition | player_activity_mgr.go:307-328 | a player may join exactly when area and channel pass, the mode is known, and `now` is inside the resolved window from the prediction instant to the close instant |
| PlayerMgr.CheckExpire | player_activity_mgr.go:292-298 | an unknown mode is expired; otherwise expiry is `now` at or after the resolved close |
| PlayerMgr.AdmittedExpiresOnlyAtClose | player_activity_mgr.go:292-328 | an admitted activity that is also expired is exactly at its resolved close instant |
| PlayerMgr.CommonData | player_activity_mgr.go:200-215 | a fresh record carries the id, no lists, an empty score set and no prerequisite progress |
| PlayerMgr.FreshRecordPassesPreCondition | player_activity_mgr.go:200-215 | a fresh record meets the prerequisites and has no score step taken |
| PlayerMgr.AddActivityList | player_activity_mgr.go:364-379 | the batch keeps the held activities; each new one is built from a listed record; the only notices are deletes of records whose configuration is gone |
| PlayerMgr.AddStopsAtHeld | player_activity_mgr.go:364-379 | a record of an already-held activity ends the batch: nothing after it is added |
| PlayerMgr.AddFreshAll | player_activity_mgr.go:364-379 | distinct fresh records with live configurations are all added unless a build panics |
| PlayerMgr.Add | player_activity_mgr.go:249-262 | a refused activity changes nothing; an admitted one reports success and ends with an add notice; a newly built instance is held afterwards and the notice carries its record, an activity already held, or one whose build fails, gets the fresh record |
| PlayerMgr.AddReportsFilledRecord | player_activity_mgr.go:249-260 | adding a new activity reports the built instance's record, which holds every built template's data at its day and index |
| PlayerMgr.AddHeldReportsFreshRecord | player_activity_mgr.go:249-262 | adding an activity already held still reports success and a fresh add notice, and keeps the held instance |
| PlayerMgr.Delete | player_activity_mgr.go:337-356 | a withdrawn activity is removed with a delete notice; an unknown live id changes nothing; a held one asks the host about each untaken score step, mails exactly its claimable list (templates, then score steps) and is removed with a delete notice; it panics exactly when the reward scan does, and then nothing changes |
| PlayerMgr.AsWrittenDeletePanicsOnSign | player_activity_mgr.go:337-356 | as written, deleting a held activity with a sign template in use whose day 0 is unclaimed panics, mails nothing and keeps the activity |
| PlayerMgr.CheckDeleteActivity | player_activity_mgr.go:274-283 | the sweep keeps exactly the held activities that are still registered and not expired; it panics exactly when deleting some swept activity panics |
| PlayerMgr.KeepAgreesWithCheckExpire | player_activity_mgr.go:274-298 | for an absolute-time activity, the sweep keeps an activity exactly when it is registered and the manager's expiry test on the resolved times fails |
| PlayerMgr.Candidates | player_activity_mgr.go:222-240 | each candidate is a joinable registered activity, as a fresh record |
| PlayerMgr.CandidatesComplete | player_activity_mgr.go:222-240 | every joinable activity among the visited ids is a candidate |
| PlayerMgr.CandidatesDistinct | player_activity_mgr.go:222-240 | visiting distinct ids yields candidates of distinct activities |
| PlayerMgr.CandidatesAllAdded | player_activity_mgr.go:222-240 | unless a build panics, adding the candidates of distinct visited ids leaves every candidate's activity held |
| PlayerMgr.CandidatesAreFound | player_activity_mgr.go:222-240 | every candidate's configuration is found in the swept registry |
| PlayerMgr.CheckAndAddGlobalActivity | player_activity_mgr.go:222-240 | the registry is swept of expired entries; every new activity is joinable; without a panic every joinable live activity is held and announced with the record its instance filled in |
| PlayerMgr.CheckNewAndDelete | player_activity_mgr.go:269-272 | afterwards every new activity is joinable and every held activity is registered and not expired |
| PlayerMgr.Init | player_activity_mgr.go:134-140 | each held activity comes from before, from the registry or from the stored records; afterwards every held activity is registered and not expired |
| PlayerMgr.SignVisit | player_activity_mgr.go:497-517 | login signs exactly the sign templates that sign at login; the repair reset zeroes exactly the daily repair count |
| PlayerMgr.ForOpenSigns | player_activity_mgr.go:402-412 | the walk over open activities keeps the held set and configurations and touches only the listed activities |
| PlayerMgr.OpenWalkStopsAtFirstInvalid | player_activity_mgr.go:402-412 | activities from the first unusable one on are left untouched |
| PlayerMgr.ResetThenReadZero | player_activity_mgr.go:749-762 | after the repair reset, the sign template reads back with a zero daily repair count |
| PlayerMgr.LoginSignsOncePerDay | player_activity_mgr.go:497-517 | after a login sign, a second login on the same day is refused with `TodaySigned` |
| PlayerMgr.Login | player_activity_mgr.go:497-517 | a login keeps the held set and configurations, leaves the activities it does not visit alone and only reports saves |
| PlayerMgr.ResetEveryDaySignRepairCount | player_activity_mgr.go:749-762 | the repair reset keeps the held set and configurations, leaves the activities it does not visit alone and only reports saves |
| PlayerMgr.AsWrittenMailsTakenRewards | player_activity_mgr.go:717-742 | the code as written mails the reward of a task already claimed, and drops that of a finished unclaimed task |
| PlayerMgr.AsWrittenResetMailsUnfinished | player_activity_mgr.go:717-742 | as written, a reset of a task template collects the rewards of every task of the rolled-over kind that is not finished, in task order |
| PlayerMgr.WalkOneMails | player_activity_mgr.go:717-742 | a reset walk of a template collects the rewards of its matched tasks, in order, over every day of a sign template |
| PlayerMgr.ResetWalkMails | player_activity_mgr.go:717-742 | a reset walk of an activity collects what the reset mails from the prerequisite tasks and then from each template in use |
| PlayerMgr.ResetRestartsTasks | player_activity_mgr.go:717-742 | the reset zeroes exactly the tasks of the rolled-over kind, and none of them stays claimable |
| PlayerMgr.ResetMailsWhatWasClaimable | player_activity_mgr.go:717-742 | the corrected reset collects the rewards of the claimable tasks of the rolled-over kind, in task order, and nothing else |
| PlayerMgr.ResetActivity | player_activity_mgr.go:717-742 | what is collected is what the reset mails from the prerequisite tasks and then from each template in use, in order; the mail with it is sent once, only when there is some and no panic occurred |
| PlayerMgr.ResetTaskByType | player_activity_mgr.go:717-742 | the reset keeps the held set and configurations; every mail carries items |
| PlayerMgr.RolloverMailsAreResets | player_activity_mgr.go:717-742 | over distinct ids, each mail of the rollover is the reset mail of one visited held activity |
| PlayerMgr.RolloverMailsAll | player_activity_mgr.go:717-742 | over distinct ids, a rollover that did not panic sent every visited activity's non-empty reset mail |
| PlayerMgr.RolloverKind | player_activity_mgr.go:717-742 | the rollover of one kind keeps the held set and configurations; over distinct ids its mails are exactly the visited activities' non-empty reset mails |
| PlayerMgr.TriggerCondition | player_activity_mgr.go:525-529 | a trigger keeps the held set and configurations and only reports saves |
| PlayerMgr.OnNewDay | player_activity_mgr.go:769-776 | the day rollover, its three walks each in its own order, keeps the held set, configurations and aliasing; over distinct ids of the task walk each mail is the daily reset mail of one held activity, and without a panic every held activity's non-empty reset mail is sent |
| PlayerMgr.OnNewWeek | player_activity_mgr.go:783-787 | the week rollover keeps the held set; over distinct ids each mail is the weekly reset mail of one held activity, and without a panic every non-empty one is sent |
| PlayerMgr.OnNewMonth | player_activity_mgr.go:793-797 | the month rollover keeps the held set; over distinct ids each mail is the monthly reset mail of one held activity, and without a panic every non-empty one is sent |
| PlayerMgr.Apply | player_activity_mgr.go:539-659 | a request to sign a template that signs at login is refused; a claimed sign reward is saved; each command runs its template's operation; a purchase runs the buy of the manager's reading of the code |
| PlayerMgr.StartActivity | player_activity_mgr.go:436-446 | an activity is startable exactly when held and usable |
| PlayerMgr.Dispatch | player_activity_mgr.go:539-659 | a command fails on a missing or unusable activity, a negative index or a template of the wrong kind; otherwise it reports the template's result, and the changed template reads back at its index |
| PlayerMgr.GetScoreReward | player_activity_mgr.go:669-678 | a score claim of the manager's reading of the code runs on a startable activity and changes only that activity; otherwise the activity does not exist |
| PlayerMgr.SucceededCommandReadsBack | player_activity_mgr.go:539-659 | after a successful command the activity is still open and its slot, under any iteration order that finds the same template, reads back the command's result |
| PlayerMgr.SignOncePerDay | player_activity_mgr.go:539-556 | after a sign request, a second one on the same day, under any iteration order that finds the same template, is refused and changes nothing |
| PlayerMgr.TaskRewardOnce | player_activity_mgr.go:622-635 | after a task claim, claiming the same task again, under any iteration order that finds the same template, is refused with a status error and changes nothing |
| PlayerMgr.ScoreRewardOnce | player_activity_mgr.go:669-678 | a second claim of the same score step is refused with `ScoreIndexGot` and changes nothing |
| PlayerMgr.AsWrittenScorePaidAgain | player_activity.go:517-527 | as written, with no stored score set a successful score claim leaves the manager unchanged, so the same claim succeeds again |
| PlayerMgr.RelativeActivitySweptOnArrival | player_activity_mgr.go:249-298 | a registration-relative activity admitted after its raw close is built with the raw configuration and fails the keep test at once |

## Left out

- Logging, `sync.Map` locking and goroutine safety are left out. The model is sequential.
- The wall clock is an input (`now`), and so are the host's answers (`Host`).
- The nil checks on callbacks are left out. Every notification is recorded as an effect.
- Go map iteration order is unspecified at run time. It is an explicit input: `order` and `ids` sequences and `Env.dayOrder`.
- `dbBatchDelete` (player_activity_mgr.go:149-165) has no caller in the source.
- `PackAllOpenActivity`, `PackOneActivity` and `getClientData` build client messages and have no effect on state.
- `NewPlayerActivityMgr` and `InitData` only store their arguments.
- The five command handlers `Sign`, `SignGetReward`, `SignRepair`, `GetTaskReward` and `ShopBuyGoods` are modelled together as `PlayerMgr.Dispatch` with a `Command`.
- `generateActivityCommonData` also writes the prerequisite task groups into a field that nothing reads. That field is not part of this model.
- The player package's sign template is modelled on its own (`PlayerSign`). The registered table builds the activity package's sign template.
- Activity.ScoreReward: an empty score system gives `ScoreSystemNil`, like a nil one. The code tests only for nil (player_activity.go:361), so an empty but non-nil list built in memory would get `ScoreIndexOut` there. Protobuf decoding leaves an empty repeated field nil, so a configuration read from storage never holds an empty non-nil list, and the model has one empty sequence for both.
- Protobuf integer widths (int32 and int64) are not modelled. Counters and timestamps are unbounded.
- PlayerMgr.Login and PlayerMgr.ResetEveryDaySignRepairCount state the frame of the walk: the held set, the configurations and the unlisted activities are kept, and only saves are reported. What they do to each sign template is stated by `SignVisit`, `ResetThenReadZero` and `LoginSignsOncePerDay`.
- PlayerMgr.ScoreRewardOnce: under the as-written reading it needs a stored score map. Without one the code pays the same step again, which `PlayerMgr.AsWrittenScorePaidAgain` states.
- PlayerMgr.RolloverKind: the mail clauses (and those of `OnNewDay`, `OnNewWeek` and `OnNewMonth`) assume the iteration order lists each id once, as a range over a Go map does.

## Findings

| source | as written | input that shows it | evidently intended | confidence | as-written member | corrected member |
|---|---|---|---|---|---|---|
| player_template_sign.go:444-456 | the scan of unclaimed days starts at day 0 and looks up reward `0 - 1` | a sign record with day 0 not claimed (always true for a fresh record) | scan days 1 to the signed day, as reward lookup is 1-indexed | high, not executed | RootSign.CanReceiveRewardAsWritten | RootSign.CanReceiveReward |
| player_activity.go:517-527 | recording a taken score step does nothing when the score set is nil, after the reward was paid | an activity record whose score set is nil; claim step 0 twice | the set is created and the step recorded | high, not executed | Activity.GetScoreRewardAsWritten | Activity.GetScoreReward |
| player_template_shop.go:98-100 | the buy count is written into a nil map after the cost was taken and the goods granted, which panics | a shop record with a nil buy-count map and a limited item | the map is allocated before the count is written | high, not executed | ShopTemplate.BuyAsWritten | ShopTemplate.Buy |
| player_activity_mgr.go:726-728 | the rollover mails rewards of tasks not in `Finish`, including `Over` (already claimed), and drops finished unclaimed ones | a task in `Over` with rewards at a week rollover | mail the unclaimed rewards, that is those of tasks in `Finish` | medium, not executed | PlayerMgr.ResetVisitorAsWritten | PlayerMgr.ResetVisitor |
