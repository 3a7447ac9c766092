# The departure engine, modelled and proved

The system sells bus seats for travel agencies. A timetable of rides says which buses should run.
For a year ahead each of those buses is stored as a departure, which operators cancel, restore, add
and move, and which passengers book. This project models the code that keeps the stored departures,
the exception rows, the reservations and the timetable in agreement, and proves what that code is
relied on for. `dafny verify dfyconfig.toml` checks all of it.

One tenant's store is a value (`Tables.Store`: rides, departures, exceptions, reservations) and the
code that writes it is a class (`DepartureStore.Database`) whose methods keep the source's loops,
groups and statement order. Each method is proved equal to a function on the store, and the theorems
are about those functions. Audit columns are not part of the store.

## How the files go together

- **Calendar and timetable.** `Calendar` has dates as text and as day numbers, `Timetable` the
  generator. The reference definitions are the Gregorian successor and "what a ride runs on a date".
- **Sync.** `SyncPlan` (the index-driven difference), `SyncRules` (what each list of a plan means),
  `SyncApply` and `Batching` (one update at a time, and the grouped statements that must equal it),
  `SyncProofs` and `SyncTheorems` (convergence, runs, insert-then-full). The partner of the planner is
  `InStep`: nothing missing, every loaded row settled. A plan is empty if and only if the store is in
  step, and a full sync of any planned sync reaches that state.
- **Decisions.** `Decisions` says what each operation leaves, `DecisionPairing`, `DecisionRuns` and
  `DecisionSafety` that the two records of a decision never part over any run, and
  `DecisionsNeedNoSync` that decisions leave an empty sync plan empty. `Booking` is the booking step, and
  `StoresInStep` shows that stores as these theorems ask for exist.
- **Links and backfill.** `LinkRule` has the three forms of the link rule. `Backfill`,
  `BackfillCompute` and `LegacyRows` are the matching, `BackfillStore` the writes, and
  `BackfillTotal`, `BackfillApply`, `BackfillTheorems`, `BackfillLinks`, `BackfillSeats`,
  `BackfillAgain` and `BackfillKeeps` what follows.
- **Locks.** `LockProtocol` is a step system of any number of transactions with first-come,
  first-served queues, `LockSafety` its safety and progress, `LockScripts` how scripts are made.
- **Guarded write.** `GuardedWrite` and `GuardTheorems`, for any world, write, sync, checks and repairs,
  `GuardLimits`, when a commit is what was agreed, `TimesKept`, the lists of checks in use, and
  `GuardedSync`, the guard over the stored departures.
- **Smaller cores.** `PassengerMerge`, `MergePlan`, `MergeSafety`, `MergeAgain` (with `Grouping` and
  `Segments`), `DateWindows`, `ReturnSeats`, `PairedRoutes`, `RefreshSessions`.
- **Results.** `TimetableRules`, `SyncResults`, `DecisionResults`, `BackfillResults`, `BackfillRows`,
  `GuardResults`, `MergeResults`, `ReturnResults` and `PairResults` say what each operation answers and
  what it leaves in every column, in terms of its inputs and the tables rather than of the functions
  that compute it. Each statement is proved of the function a method is proved equal to.

`Basics` and `Text` hold sequences, sorting and string order.

## Where a claim holds exactly

Some claims of the code or its comments hold under a condition, which is proved both ways.

- `addDays(date, 1)` is the next day if and only if the year is at least 100 and the date is not the
  last of year 9999: `Date.UTC` reads smaller years as 19xx, and a five-digit year is cut by the slice.
- Bringing a timetable departure back needs no sync if and only if it is not dropped or somebody is on
  it. `restoreDeparture` refuses the dropped case; `unskipDate` alone does not.
- The seat helper's three tests are interval overlap if and only if the stored journey runs forwards
  or is not wrapped by the new one.
- A synced pair of lines conflicts again if and only if the merged order has a stop only one line must
  leave out and a stop only the other must. Lines that avoid their own endpoints never do.
- A confirmation token is overruled if and only if a repair is still asked for under it by an
  invariant that has one.
- A guarded ride exception, cancelled departure, station or passenger always commits what was agreed;
  a line, ride or extra edited does if and only if no repair of unreachable reservations is asked for
  (`TimesKept.ListsAsAgreedIff`). For arbitrary checks, repairs and syncs the condition is
  `GuardLimits.AsAgreedIff`.
- The pairing check is quiet if and only if what it compares agrees (`DecisionSafety.QuietMeans`). It
  does not see two extras sharing an ADDITIONAL, nor a cancelled extra linked to one without a time.
- A SKIP nobody signed is credited to the operator by a decision and to the system actor by the sync;
  otherwise the two credits agree.

## Where the code and its comments differ

The model follows the code.

- `api/src/departures/departure-operations.ts:21-22` says the sync no longer reads exception rows. It
  reads SKIPs for departures it creates and ADDITIONALs that have no extra yet.
- `api/src/invariants/prospective-write.ts:108-113` says a write commits only when the proposed state
  adds nothing that was not confirmed or repaired. Each invariant is judged once, in turn, so a repair
  can add to one judged before it: line 36 puts `reservation.departureTimeKept` first on purpose, and
  a reservation that a repair links is not asked about (`TimesKept.LinkedBookingsAreNotAskedAbout`).
- `api/src/invariants/prospective-write.ts:186-187` says the sync after the loop deletes a departure
  that a repair moved every reservation off. A repair moves only reservations that have no departure,
  so that sync changes nothing (`GuardedSync.SecondSyncChangesNothing`), and that it goes unmeasured,
  lines 224-229, is no gap.

## Model

| member | source | states |
|---|---|---|
| `Calendar.DayFromYearFormula` | api/src/departures/agency-date.ts:59 | Counting days year by year gives the closed formula `Date.UTC` uses, for every year from 0 |
| `Calendar.SuccessorIsNextDay` | api/src/departures/agency-date.ts:57-62 | The Gregorian successor of a date is a real date one day later, across month ends and leap years |
| `Calendar.DayNumberOrder` | api/src/departures/agency-date.ts:57-62 | Day numbers order dates as the calendar does, and tell any two dates apart |
| `Calendar.IsoRoundTrip` | api/src/departures/agency-date.ts:61 | Writing a four-digit-year date as `YYYY-MM-DD` and reading it back gives the same date |
| `Calendar.CivilRoundTrip` | api/src/departures/agency-date.ts:58 | Reading date-shaped text and writing it again gives the same text |
| `Calendar.DateOrder` | api/src/departures/agency-date.ts:64-67 | String order on `YYYY-MM-DD` is date order (RFC 3339 sections 5.1 and 5.6), for less, equal and at most |
| `Calendar.AddDaysShifts` | api/src/departures/agency-date.ts:57-62 | Moving a date by any number of days moves its day number by exactly that, for every year from 100 whose target has four digits |
| `Calendar.AddDaysIsSuccessor` | api/src/departures/agency-date.ts:57-62 | `addDays(date, 1)` is the next calendar day if and only if the year is at least 100 and the date is not 9999-12-31 |
| `Calendar.WalkVisitsEachDay` | api/src/departures/departure-generator.ts:190-210 | The day loop ends, and visits every date from `from` to `to`, each once and in order, and nothing else |
| `Calendar.WindowHasHorizon` | api/src/departures/agency-date.ts:16-74 | The window holds the agency date and the 365 days after it: 366 dates |
| `Timetable.GenerateDepartures` | api/src/departures/departure-generator.ts:178-214 | The nested loops produce exactly the specified list of departures over the dates of the window |
| `Timetable.GenerateRide` | api/src/departures/departure-generator.ts:190-210 | One ride, a day at a time, until the date passes the end of the window |
| `Timetable.GeneratedExactly` | api/src/departures/departure-generator.ts:178-214 | What is emitted is exactly what each running ride runs on each date, both ways round, and no key is emitted twice |
| `Timetable.GeneratedOverWindow` | api/src/departures/departure-generator.ts:178-214 | The same as a fact about every date of the window, not about the loop |
| `Timetable.RecurringRunMeans` | api/src/rides/ride-instance-materialization.ts:93-148 | A recurring ride runs inside its start and end dates, on a weekday it has a schedule for, from its first ordered station's time to its last's |
| `TimetableRules.RunsIff` | api/src/rides/ride-instance-materialization.ts:93-148 | A one-time ride runs on a date from `a` to `b` if and only if that is its date, `a` its departure time and `b` its arrival time, both given; a recurring one if and only if the date is inside its season, both ends included, and the first schedule listed for the weekday has `a` at its first station by order and `b` at its last |
| `TimetableRules.GapIff` | api/src/rides/ride-instance-materialization.ts:93-148 | Why a ride does not run, in the order it is asked: outside its dates, no schedule for the weekday, or a time missing at either end |
| `TimetableRules.WeekdayMeans` | api/src/rides/ride-instance-materialization.ts:80-82 | Days of the week follow one another in turn, from the Thursday of 1 January 1970 |
| `TimetableRules.PlannedMeans` | api/src/departures/departure-generator.ts:178-214 | A timetable departure exists if and only if its ride and line are active and the ride runs that day; its times, capacity, line and every stop of its route are those of the ride's columns |
| `TimetableRules.EmittedMeans` | api/src/departures/departure-generator.ts:178-214 | The generator emits a departure for each ride and date that runs, with those columns, and none besides, and no key twice |
| `Timetable.ScheduleStopsCallAt` | api/src/departures/departure-generator.ts:150-171 | A recurring departure calls at its weekday's stations, in order, at their times; the first only boards and the last only drops off |
| `Timetable.ExtraRouteEnds` | api/src/departures/departure-generator.ts:128-148 | A line-path route starts at the line's departure station at the departure time, boarding only, ends at its arrival station, drop-off only, and numbers its stops from 0 |
| `Timetable.ExtraRouteCallsEverywhere` | api/src/departures/departure-generator.ts:128-148 | Two stops of the line with increasing `orderIndex` are both called at, in that order, strictly between the ends |
| `Timetable.MiddleStopFlags` | api/src/departures/departure-generator.ts:104-148 | A stop between the ends carries the line's own boarding and drop-off flags and no time of its own |
| `SyncPlan.SkipsByRideDate` | api/src/departures/exception-records.ts:40-52 | The index holds, for each ride and date, the first SKIP in load order and only that |
| `SyncPlan.SameStopsIsSameRows` | api/src/departures/departure-sync.ts:392-406 | With distinct order indexes, comparing sorted texts says equal if and only if the two lists hold the same stop rows in any order |
| `SyncPlan.DiffDepartures` | api/src/departures/departure-sync.ts:236-344 | The passes that fill and empty `storedByKey` compute the declarative difference: creates, updates, drops and deletes |
| `SyncPlan.IndexStored` | api/src/departures/departure-sync.ts:248-261 | The index finds the first stored row of each key, and the rest are kept aside in order |
| `SyncPlan.MatchPlanned` | api/src/departures/departure-sync.ts:266-283 | Each planned departure takes its match once, and what stays in the index is what no planned departure named |
| `SyncPlan.Remaining` | api/src/departures/departure-sync.ts:333 | The values left in the map, in insertion order |
| `SyncRules.PlanUpdates` | api/src/departures/departure-sync.ts:266-310 | The plan's updates are exactly the loaded rows that differ from what the timetable or their ride says |
| `SyncRules.PlanUpdatesDistinct` | api/src/departures/departure-sync.ts:263-310 | No departure is updated twice in one plan |
| `SyncRules.PlanDropsAndDeletes` | api/src/departures/departure-sync.ts:333-343 | A row the timetable no longer produces is deleted if and only if it is neither cancelled nor referenced; it is marked dropped if and only if it is one of those and not marked yet |
| `SyncRules.PlannedCreateIsMissing` | api/src/departures/departure-sync.ts:266-331 | Everything created is a timetable departure or an ADDITIONAL's bus the store does not have |
| `SyncRules.MissingIsPlanned` | api/src/departures/departure-sync.ts:266-331 | Every missing one is created, under its own key |
| `SyncRules.PlanCreatesDistinct` | api/src/departures/departure-sync.ts:263-331 | No key is created twice |
| `SyncRules.NothingMissingIffNoCreates` | api/src/departures/departure-sync.ts:266-331 | Nothing is created if and only if no timetable departure and no ADDITIONAL bus of the window is missing |
| `SyncRules.AllSettledIffNoChanges` | api/src/departures/departure-sync.ts:266-343 | Nothing is updated, marked or deleted if and only if every loaded row already is what it should be |
| `SyncRules.PlanEmptyIffInStep` | api/src/departures/departure-sync.ts:125-165 | The plan is four empty lists if and only if nothing of the window is missing and every loaded row is settled |
| `SyncApply.InsertPlannedExactly` | api/src/departures/departure-sync.ts:408-468 | Every planned departure is stored under its own new ID, every stored row is untouched, and nothing else appears |
| `SyncApply.OneByOneIsPointwise` | api/src/departures/departure-sync.ts:478-528 | With one update for each departure, writing them in turn writes each row once |
| `SyncApply.RetimeIsPointwise` | api/src/departures/departure-sync.ts:537-572 | With one update for each departure, retiming them in turn retimes each reservation by its own bus's update |
| `SyncProofs.FullSyncRows` | api/src/departures/departure-sync.ts:167-201 | A full sync row by row: who is rewritten, marked, deleted or created, and with what values |
| `SyncProofs.SyncConverges` | api/src/departures/departure-sync.ts:125-201 | After a full sync of any planned sync the stored window is in step with the same clock, timetable and exceptions |
| `SyncProofs.SecondPlanIsEmpty` | api/src/departures/departure-sync.ts:125-201 | Planning again after a full sync gives four empty lists |
| `SyncProofs.SyncKeepsValid` | api/src/departures/departure-sync.ts:167-201 | Keys, foreign keys and both unique indexes hold after a sync in either mode, so its inserts and deletes cannot fail |
| `SyncProofs.KeptDecisions` | api/src/departures/departure-sync.ts:218-235 | A row that is not deleted keeps its source, ride, date, cancellation and exception link |
| `SyncTheorems.WindowIsTimetable` | api/src/departures/departure-sync.ts:125-201 | In a store in step the undropped timetable rows of the window and the generator's output match one to one with equal fields |
| `SyncTheorems.InsertThenFullIsFull` | api/src/departures/departure-sync.ts:60-201 | The nightly insert followed by a full sync reaches the very store one full sync reaches, and creates nothing more |
| `SyncTheorems.SyncKeepsTimes` | api/src/departures/departure-sync.ts:530-572 | If every booked reservation carries its departure's current times before a sync, it does after, in either mode |
| `SyncTheorems.SyncStepKeeps` | api/src/departures/departure-sync.ts:167-201 | One step of a run: a protected departure stays with its decision, and a row outside the window stays as it was |
| `SyncTheorems.RunKeepsDecisions` | api/src/departures/departure-sync.ts:167-344 | Over any run of timetable edits, full syncs and nightly inserts no extra, cancelled or referenced departure is deleted, a departure that is not deleted keeps its decision, a LEGACY row and one outside every window are left exactly as they were, and every reservation stays on its departure |
| `SyncResults.CallAlikeIff` | api/src/departures/departure-sync.ts:392-406 | Two lists of stops compare equal if and only if, each by order index and equals as listed, they call at the same stations with the same times and flags |
| `SyncResults.DiffMeans` | api/src/departures/departure-sync.ts:236-344 | The difference of any two lists, repeated keys included: exactly the planned departures that take no stored row are made, the rows taken are rewritten where they differ, and a row that is not taken goes, or is marked once where somebody is on it or it is cancelled |
| `SyncResults.FullSyncMeans` | api/src/departures/departure-sync.ts:60-201 | What a full sync leaves, in the columns of the tables: each stored row of the window follows its ride or, an extra, its line; one without a ride that day is marked or goes; each missing timetable departure and each ADDITIONAL's missing bus is made, credited by the first SKIP; passengers take their bus's new times; nothing else changes |
| `SyncResults.InsertMeans` | api/src/departures/departure-sync.ts:60-201 | The nightly insert makes those missing departures and changes nothing else |
| `Batching.GroupRows` | api/src/departures/departure-sync.ts:484-508 | The groups hold exactly the rows that change in more than their stops, each under the values it is to have |
| `Batching.AllGroupsWritten` | api/src/departures/departure-sync.ts:510-512 | One statement for each group writes every such row its own values, whatever order the groups are taken in |
| `Batching.ColumnsThenStops` | api/src/departures/departure-sync.ts:510-527 | Grouped columns, the skip of stops-only rows and one replacement of stops leave each row as if its update had been written alone |
| `Batching.GroupTimes` | api/src/departures/departure-sync.ts:542-560 | The time groups hold exactly the referenced departures whose times change |
| `Batching.AllTimesWritten` | api/src/departures/departure-sync.ts:542-571 | One statement for each pair of times equals retiming each reservation alone; skipping unreferenced buses loses nothing |
| `DepartureStore.Database.SyncDepartures` | api/src/departures/departure-sync.ts:207-216 | Plans against what the queries returned and applies: the new store is the specified one, valid, and in step after a full sync |
| `DepartureStore.Database.PlanDepartures` | api/src/departures/departure-sync.ts:125-165 | The plan of the rows read |
| `DepartureStore.Database.ApplyDepartureSync` | api/src/departures/departure-sync.ts:167-201 | Creates, then unless inserting only, updates, marks and deletes |
| `DepartureStore.Database.CreateDepartures` | api/src/departures/departure-sync.ts:408-468 | Inserts each planned departure under its new ID |
| `DepartureStore.Database.UpdateDepartures` | api/src/departures/departure-sync.ts:478-528 | The grouped statements equal writing every update alone, to departures and to reservations |
| `DepartureStore.Database.WriteColumns` | api/src/departures/departure-sync.ts:484-512 | The grouped column statements |
| `DepartureStore.Database.RewriteReservationTimes` | api/src/departures/departure-sync.ts:537-572 | The grouped time statements equal retiming each reservation by its own bus |
| `DepartureStore.Database.ReplaceStops` | api/src/departures/departure-sync.ts:516-527 | One delete and one insert of stop rows replaces the stops of exactly the rows whose stops changed |
| `DepartureStore.Database.Prepare` | api/src/departures/departure-operations.ts:117-189 | The refusals in the order they are asked: not found, then the first that applies to the row and operation, then the date |
| `DecisionResults.PreparedIff` | api/src/departures/departure-operations.ts:117-189 | An operation is refused for exactly the first reason that applies to the departure as stored, and otherwise goes on with that row |
| `DecisionPairing.CancelTouchesOne` | api/src/departures/departure-operations.ts:218-238 | Cancelling a date's timetable departure touches at most one departure, and one exactly when it is stored and running |
| `DecisionPairing.FirstCreditStands` | api/src/departures/departure-operations.ts:218-238 | A date cancelled twice stays credited to the first author |
| `DecisionPairing.RestoreUndoesCancelIff` | api/src/departures/departure-operations.ts:218-255 | Restoring a date undoes its cancelling if and only if the timetable departure was running before |
| `DepartureStore.Database.SkipDate` | api/src/departures/departure-operations.ts:262-295 | Finds or creates the SKIP, and credits it on the departure |
| `DepartureStore.Database.UnskipDate` | api/src/departures/departure-operations.ts:301-311 | Clears the cancellation, and deletes every SKIP of the date |
| `DepartureStore.Database.CancelDeparture` | api/src/departures/departure-operations.ts:321-352 | Refused without a write, or cancelled on both records |
| `DepartureStore.Database.ReleaseAdditional` | api/src/departures/departure-operations.ts:359-376 | The ADDITIONAL goes unless another extra is still linked to it, and the link is set to null |
| `DepartureStore.Database.RestoreDeparture` | api/src/departures/departure-operations.ts:383-421 | Refused without a write, or running again on both records, an extra with a new ADDITIONAL |
| `DecisionRuns.CapacityBackAgainIff` | api/src/departures/departure-operations.ts:463-495 | Editing a ride's capacity and editing it back leaves every extra as it was if and only if no extra ahead was already at the new capacity; one that was cannot be told apart and follows |
| `DepartureStore.Database.CreateExtra` | api/src/departures/departure-operations.ts:505-535 | Refused for an unknown ride, a date outside the window or equal times, or an extra and its ADDITIONAL |
| `DepartureStore.Database.UpdateExtra` | api/src/departures/departure-operations.ts:549-605 | Refused without a write, or the departure, its stops, its ADDITIONAL and its passengers all moved together |
| `DepartureStore.Database.DeleteExtra` | api/src/departures/departure-operations.ts:612-616 | Refused when referenced or not an extra, or the row and its ADDITIONAL gone |
| `DepartureStore.Database.RemoveAdditional` | api/src/departures/departure-operations.ts:624-661 | Each extra of the ADDITIONAL deleted if nothing references it and cancelled otherwise; the outcome says which happened |
| `DepartureStore.Database.FollowRideCapacity` | api/src/departures/departure-operations.ts:474-495 | The extras ahead that had the ride's old capacity take its new one, and nothing else changes |
| `DepartureStore.Database.Book` | api/src/departures/booking-departure.ts:132-170 | A booking is refused exactly when the bus is gone, changed or not running, and otherwise one reservation is written with its copies |
| `DecisionResults.SkipMeans` | api/src/departures/departure-operations.ts:262-295 | The date's first SKIP, or a new one signed by the operator, credits a running timetable departure; a cancelled one keeps its credit, and nothing else changes |
| `DecisionResults.UnskipMeans` | api/src/departures/departure-operations.ts:301-311 | The timetable departure runs again, every SKIP of the date is gone with whatever pointed at it, and nothing else changes |
| `DecisionResults.ReleaseMeans` | api/src/departures/departure-operations.ts:359-376 | The ADDITIONAL goes if and only if no other extra is linked to it, and nothing else changes |
| `DecisionResults.CancelMeans` | api/src/departures/departure-operations.ts:321-352 | The departure is cancelled, credited to the operator and the hour; a timetable one has a SKIP, an extra loses its link, and nothing else changes |
| `DecisionResults.RestoreMeans` | api/src/departures/departure-operations.ts:383-421 | A restored extra runs under a new ADDITIONAL with its own times, signed by the operator; a timetable departure runs with the date's SKIPs gone |
| `DecisionResults.CreateExtraMeans` | api/src/departures/departure-operations.ts:438-535 | The extra stored: ride, date and times asked for, the capacity given or else the ride's, the ride's line and line path, its new ADDITIONAL, dropped if and only if the ride does not run; every other row unchanged |
| `DecisionResults.UpdateExtraMeans` | api/src/departures/departure-operations.ts:549-605 | The edited extra, its stops, its ADDITIONAL and its passengers, column by column, and nothing else changed |
| `DecisionResults.DeleteExtraMeans` | api/src/departures/departure-operations.ts:612-616 | The extra is gone, and its ADDITIONAL if no other extra is linked to it |
| `DecisionResults.RemoveAdditionalMeans` | api/src/departures/departure-operations.ts:624-661 | Each extra of the ADDITIONAL is gone if nothing references it and else cancelled with its first credit, none is linked to it, and the ADDITIONAL is gone |
| `DecisionResults.RemovalOutcomeIff` | api/src/departures/departure-operations.ts:624-661 | What the operator is told: cancelled if and only if some extra of the ADDITIONAL is referenced, deleted if there are extras and none is, nothing if there was none |
| `DecisionResults.CapacityMeans` | api/src/departures/departure-operations.ts:474-495 | A ride's new capacity is taken by exactly its extras from today on that had the old one |
| `DecisionResults.BookingRefusedIff` | api/src/departures/booking-departure.ts:132-170 | A booking is refused as changed if and only if a copy differs, and as not running if and only if none does and the departure is LEGACY, cancelled or dropped |
| `DecisionPairing.SkipKeepsPaired` | api/src/departures/departure-operations.ts:262-295 | Skipping a date keeps departures and exception rows telling the same story |
| `DecisionPairing.UnskipKeepsPaired` | api/src/departures/departure-operations.ts:301-311 | So does taking the skip back |
| `DecisionPairing.CancelKeepsPaired` | api/src/departures/departure-operations.ts:321-376 | So does cancelling a timetable departure or an extra |
| `DecisionPairing.CancelIsSkip` | api/src/departures/departure-operations.ts:321-352 | Cancelling a timetable departure is skipping its date, with the departure credited to the operator who cancelled it |
| `DecisionPairing.ReleaseKeepsPaired` | api/src/departures/departure-operations.ts:359-376 | Releasing an extra's ADDITIONAL, once the extra is unlinked or gone, keeps the pairing |
| `DecisionPairing.RestoreKeepsPaired` | api/src/departures/departure-operations.ts:383-421 | So does restoring either |
| `DecisionPairing.CreateKeepsPaired` | api/src/departures/departure-operations.ts:505-535 | So does creating an extra |
| `DecisionPairing.DeleteKeepsPaired` | api/src/departures/departure-operations.ts:612-616 | So does deleting one |
| `DecisionPairing.MoveKeepsPaired` | api/src/departures/departure-operations.ts:549-605 | So does giving an extra and its ADDITIONAL the same new times |
| `DecisionRuns.UpdateKeepsPaired` | api/src/departures/departure-operations.ts:549-605 | So does every edit of an extra, moved or only resized |
| `DecisionRuns.RemoveKeepsPaired` | api/src/departures/departure-operations.ts:624-661 | So does removing an ADDITIONAL with whatever extras it has |
| `DecisionRuns.CapacityKeepsPaired` | api/src/departures/departure-operations.ts:474-495 | So does a ride's capacity edit |
| `DecisionRuns.SyncKeepsPaired` | api/src/departures/departure-sync.ts:167-344 | So does a sync in either mode, for every date and not only those of its window |
| `DecisionSafety.StepKeepsSound` | api/src/departures/departure-operations.ts:21-31 | Every step, refused or not, keeps the pairing and the database's constraints |
| `DecisionSafety.StepKeepsTimes` | api/src/departures/departure-operations.ts:549-605 | Every step keeps each booked reservation at its departure's current times |
| `DecisionSafety.RunsKeepPairing` | api/src/departures/departure-operations.ts:21-31 | Over every run of decisions, bookings, timetable edits with their syncs and nightly inserts: a timetable departure is cancelled if and only if its ride and date has a SKIP, each running extra has its own ADDITIONAL with its times, a cancelled extra has none, and booked times are current |
| `DecisionSafety.QuietMeans` | api/src/invariants/checks/departure-matches-exceptions.ts:121-253 | For any store, the check reports nothing about a window if and only if its timetable departures are cancelled where a SKIP says so, each of its ADDITIONALs with both times is stored at them by the extra loaded last for it, and its extras run exactly while linked to one of those |
| `DecisionSafety.CheckIsQuietIffPaired` | api/src/invariants/checks/departure-matches-exceptions.ts:121-253 | For any store, the check is quiet, no ADDITIONAL is shared or linked across rides and dates, no cancelled extra of the window is linked and an ADDITIONAL with an empty time has its bus, if and only if the window's departures and exception rows are paired and no extra of it runs at an empty time |
| `DecisionSafety.SharedIsQuiet` | api/src/invariants/checks/departure-matches-exceptions.ts:129-135 | In a store the database takes, two running extras that share one ADDITIONAL at their times are not reported |
| `DecisionSafety.LinkedWithoutTimesIsQuiet` | api/src/invariants/checks/departure-matches-exceptions.ts:167-172 | In a store the database takes, a cancelled extra still linked to an ADDITIONAL without a time is not reported |
| `DecisionsNeedNoSync.CancelScheduleInStep` | api/src/departures/departure-operations.ts:321-352 | Cancelling a timetable departure leaves a store in step in step |
| `DecisionsNeedNoSync.UnskipNeedsSyncIff` | api/src/departures/departure-operations.ts:142-189 | Bringing a timetable departure back needs no sync if and only if it is not dropped or somebody is on it: the dropped, unreferenced one is what `DEPARTURE_DROPPED` refuses |
| `DecisionsNeedNoSync.CancelExtraInStep` | api/src/departures/departure-operations.ts:321-376 | Cancelling an extra needs no sync |
| `DecisionsNeedNoSync.RestoreExtraInStep` | api/src/departures/departure-operations.ts:383-421 | Restoring an extra needs no sync |
| `DecisionsNeedNoSync.CreateExtraInStep` | api/src/departures/departure-operations.ts:505-535 | Creating an extra needs no sync, also on a ride that does not run |
| `DecisionsNeedNoSync.UpdateExtraInStep` | api/src/departures/departure-operations.ts:549-605 | Moving or resizing an extra needs no sync |
| `DecisionsNeedNoSync.DeleteExtraInStep` | api/src/departures/departure-operations.ts:612-616 | Deleting an extra needs no sync |
| `DecisionsNeedNoSync.DecisionKeepsStep` | api/src/departures/departures.service.ts:35-37 | Any decision on a departure, refused or not, leaves a store in step in step |
| `DecisionsNeedNoSync.DecisionsNeedNoSync` | api/src/departures/departures.service.ts:35-37 | As the planner sees it: four empty lists before any decision, four empty lists after it |
| `DecisionsNeedNoSync.DecisionRunStaysInStep` | api/src/departures/departures.service.ts:35-37 | A run of decisions of any length leaves a sound store in step sound and in step after each of them |
| `DecisionsNeedNoSync.DecisionRunNeedsNoSync` | api/src/departures/departures.service.ts:35-37 | As the planner sees it: an empty plan before a run of decisions is an empty plan after every one of them |
| `StoresInStep.StoreCanBeRead` | api/src/departures/departure-sync.ts:147-151 | Every store whose rides carry their own IDs has rows the sync's reads can return of it, for every window |
| `StoresInStep.LivedInStoreExists` | api/src/departures/departure-sync.ts:125-165 | On any date a running ride departs there is a store with its timetable departure, an extra and a passenger on that extra that is sound, in step, with current times, and of which the sync plans nothing |
| `DecisionsNeedNoSync.CreditsAgreeIff` | api/src/departures/exception-records.ts:75-81 | A SKIP credits the same author from an operator's decision and from the sync if and only if somebody signed it or the operator is the system actor |
| `DecisionsNeedNoSync.SkippedNowOrLater` | api/src/departures/departure-operations.ts:262-295 | A signed SKIP leaves the same cancellation on a departure already stored and on one the sync stores later |
| `Booking.BookSeat` | api/src/departures/booking-departure.ts:57-170 | A booking succeeds on a departure if and only if the date is inside the window, that departure is the one meant and it runs unchanged; nothing but the one reservation is written |
| `Booking.BookedIsAmongMatches` | api/src/departures/booking-departure.ts:132-148 | A reservation just booked is one the link rule would find on that same departure |
| `LinkRule.KeyTextNames` | api/src/departures/departure-link.ts:68-70 | The key text names its ride, date and time where dates are dates and times hold no dash, whatever the rides' IDs; also where rides and dates hold no colon, and where dates and times have one width |
| `LinkRule.IndexLinkableDepartures` | api/src/departures/departure-link.ts:72-102 | The map built in one fold gives, for every key, its one departure, or nothing for none or several |
| `LinkRule.IndexedIsSingle` | api/src/departures/departure-link.ts:77-102 | A key is in the index if and only if some row has it, and its entry is that of the full list of matches |
| `LinkRule.OneRuleThreeForms` | api/src/departures/departure-link.ts:35-102 | The query limited to two rows, the index and the list of candidates agree on every key: a departure is returned if and only if it is the only match |
| `BackfillResults.MatchesAreCandidates` | api/src/departures/departure-link.ts:47-66 | The candidates of a reservation are the timetable departures and extras of its ride and date that leave at its time |
| `LegacyRows.LegacyArrival` | api/src/departures/departure-backfill.ts:475-497 | The two loops and the reduction choose what the specification chooses |
| `LegacyRows.CountTimes` | api/src/departures/departure-backfill.ts:475-497 | The first loop counts each time and lists the times as they are first met |
| `LegacyRows.LegacyArrivalIsMostSold` | api/src/departures/departure-backfill.ts:470-497 | The chosen time was sold, no time was sold more often, and every tied time was first sold later |
| `LegacyRows.DuplicateActiveSeats` | api/src/departures/departure-backfill.ts:500-526 | The marked seats, sorted, are the repeated seats of the taken ones and the group's active ones |
| `LegacyRows.RepeatedSeatsExactly` | api/src/departures/departure-backfill.ts:500-526 | A seat is in that list if and only if it occurs at least twice |
| `LegacyRows.SeatsAbove` | api/src/departures/departure-backfill.ts:418-424 | Exactly the seats of a group above the stored capacity, once each and increasing |
| `LegacyRows.LegacyCapacity` | api/src/departures/departure-backfill.ts:443 | The capacity is at least the ride's, holds every seat sold, and is no larger than one of those |
| `Backfill.GenerateHistory` | api/src/departures/departure-backfill.ts:211-250 | Filter, index, credit and extras compute the specified history |
| `Backfill.RecordsBetween` | api/src/departures/departure-backfill.ts:217-219 | The exceptions dated inside the window, in order |
| `Backfill.CreditSkips` | api/src/departures/departure-backfill.ts:221-224 | Each timetable departure takes its SKIP's credit, or none |
| `Backfill.HistoryExtras` | api/src/departures/departure-backfill.ts:229-247 | An extra for each bus ADDITIONAL of a running ride, whatever was skipped |
| `BackfillApply.HistoryExactly` | api/src/departures/departure-backfill.ts:204-250 | The history is exactly what the timetable and the ADDITIONALs ran in the window, each key once, credited by its SKIP |
| `BackfillCompute.FilterHistory` | api/src/departures/departure-backfill.ts:291-298 | The history that is past, not stored and wanted by a reservation |
| `BackfillCompute.IndexStoredDepartures` | api/src/departures/departure-backfill.ts:301-311 | Candidates by key in stored order, and the LEGACY departure of each key |
| `BackfillCompute.AddHistoryCandidates` | api/src/departures/departure-backfill.ts:316-318 | The candidates with the new history added |
| `BackfillCompute.ReadManualLinks` | api/src/departures/departure-backfill.ts:328-358 | Each manual link accepted, already done, or refused for the first reason that applies |
| `BackfillCompute.IndexSeats` | api/src/departures/departure-backfill.ts:405-409 | The active seats of each stored LEGACY departure, in order |
| `BackfillCompute.SortReservations` | api/src/departures/departure-backfill.ts:364-400 | Every reservation linked, left for a LEGACY group or reported, in order |
| `BackfillCompute.PlaceGroup` | api/src/departures/departure-backfill.ts:411-451 | A group reuses the stored LEGACY departure, makes one, or finds its ride missing |
| `BackfillCompute.PlaceGroups` | api/src/departures/departure-backfill.ts:411-456 | All groups, or the first ride that was not loaded |
| `BackfillCompute.ComputeDepartureBackfill` | api/src/departures/departure-backfill.ts:281-468 | The whole computation is the specified plan, and fails if and only if a new LEGACY departure's ride was not loaded |
| `BackfillTotal.EveryReservationOnce` | api/src/departures/departure-backfill.ts:364-456 | As multisets, the linked and the reported reservations together are the reservations read: each once, in one of the two |
| `BackfillTotal.LinksExactly` | api/src/departures/departure-backfill.ts:364-456 | A link is planned if and only if it is some reservation's own outcome |
| `BackfillTotal.ManualLinksAccepted` | api/src/departures/departure-backfill.ts:328-358 | No manual link is refused if and only if every one is good and none lists a reservation twice |
| `BackfillTheorems.DeparturesAfter` | api/src/departures/departure-backfill.ts:723-752 | After the apply the departures are the stored ones unchanged and the planned ones, and no others |
| `BackfillTheorems.PoolIsLinkRule` | api/src/departures/departure-backfill.ts:301-318 | On the reservations' dates, the candidates listed are the departures the link query would find once the history is stored |
| `BackfillLinks.ReservationsAfter` | api/src/departures/departure-backfill.ts:754-775 | Each reservation read has its planned departure and no other change, and every other reservation is as it was |
| `BackfillLinks.LinksFollowTheRule` | api/src/departures/departure-backfill.ts:364-400 | After the apply an EXISTING or HISTORY link is what the booking rule resolves to, a manual one is among its matches, a LEGACY one stands only where there is no match, and an unlinked reservation resolves to nothing |
| `BackfillResults.EachReservationGoes` | api/src/departures/departure-backfill.ts:364-400 | For each reservation without a manual link, from its own row and the matches stored after the apply: it joins its only match, of the history if that was not stored before; without a match it goes on a LEGACY departure if and only if it is past or cancelled, and else is reported; with several it is reported; a report lists exactly the matches, and is for somebody who is still to travel if and only if the reservation is ACTIVE and not past |
| `BackfillResults.ChoiceIsFollowed` | api/src/departures/departure-backfill.ts:328-372 | An accepted manual link puts its reservation on the bus chosen, which is one of its matches |
| `BackfillResults.LeftoverHasItsBus` | api/src/departures/departure-backfill.ts:411-456 | A leftover's LEGACY departure is of its ride, date and time |
| `BackfillResults.ChoicesRefusedIff` | api/src/departures/departure-backfill.ts:328-358 | Each manual link is refused with each problem exactly when the tables say so: listed after a good one for the same reservation, on another departure, no reservation of the tenant, or not among its matches; and those already done are counted once each |
| `BackfillRows.PastIsRecorded` | api/src/departures/departure-backfill.ts:204-318 | The timetable departures and buses of the past that some reservation is for and nobody has stored, credited by the first SKIP, are stored after a backfill, and no other is |
| `BackfillRows.LegacyIsMade` | api/src/departures/departure-backfill.ts:411-451 | A LEGACY departure is made for a ride, date and time that has leftovers and none stored, at the time most of them were sold and, of several, the one sold first, with seats for all of them; the plan lists who joins each, the times that disagree, and the seats above a stored capacity |
| `BackfillSeats.DuplicatesAreSoldTwice` | api/src/departures/departure-backfill.ts:411-451 | Of every LEGACY departure the backfill makes or adds passengers to, the duplicate seats it reports are exactly those that two ACTIVE reservations hold after the apply |
| `BackfillAgain.SecondRunWritesNothing` | api/src/departures/departure-backfill.ts:566-569 | Read again after its apply with the same manual links, the plan writes nothing, counts every manual link as done, refuses none and reports the same reservations for the same reasons |
| `BackfillKeeps.BackfillKeepsValid` | api/src/departures/departure-backfill.ts:723-776 | Keys, foreign keys and unique indexes still hold |
| `BackfillKeeps.BackfillKeepsPaired` | api/src/departures/departure-backfill.ts:723-776 | From the agency date on, departures and exception rows stay paired |
| `BackfillKeeps.BackfillKeepsStep` | api/src/departures/departure-backfill.ts:799-802 | An empty sync plan is still empty after a backfill |
| `BackfillStore.LinkGroup` | api/src/departures/departure-backfill.ts:763-775 | One statement links a departure's reservations, or the count shows the plan cannot be linked |
| `BackfillStore.LinkReservations` | api/src/departures/departure-backfill.ts:754-775 | All links made if and only if each reservation is named once, stored and unlinked; otherwise nothing is written |
| `BackfillStore.InsertLegacy` | api/src/departures/departure-backfill.ts:736-752 | The LEGACY departures inserted as planned |
| `BackfillStore.ApplyDepartureBackfill` | api/src/departures/departure-backfill.ts:723-776 | Applied whole if and only if no manual link is invalid and every link can be made, and otherwise nothing is written |
| `BackfillStore.PlannedLinksCanBeMade` | api/src/departures/departure-backfill.ts:770-774 | Under the lock the count check never fails for a plan made from what is stored |
| `BackfillStore.CanLinkIff` | api/src/departures/departure-backfill.ts:754-775 | The counts of the updates come out right if and only if no reservation is listed twice and each is stored and on no departure |
| `BackfillStore.LinkedIsWritten` | api/src/departures/departure-backfill.ts:754-775 | The links written: each reservation listed is on its departure and otherwise as it was, and so is every other |
| `BackfillStore.BackfillDepartures` | api/src/departures/departure-backfill.ts:782-804 | Goes through if and only if the stored window is in step, every ride is loaded and every manual link is good; then the store is valid and still in step |
| `LockProtocol.StepInv` | api/src/prisma/schedule-lock.ts:79-187 | Every step keeps locks compatible, queues exact and scripts ordered |
| `LockScripts.WriterScript` | api/src/prisma/schedule-lock.ts:112-119 | De-duplicating and sorting gives a writer a script that locks each of its tenants, then each of its departures, and nothing else, in ascending order |
| `LockScripts.ScriptMembers` | api/src/departures/departure-lock.ts:27-36 | Sorted tenants followed by sorted rows is an ascending script of exactly those locks |
| `Text.SortedOnce` | api/src/prisma/schedule-lock.ts:116 | De-duplicating and sorting keeps every ID, once each, in increasing order |
| `LockSafety.EditExcludes` | api/src/prisma/schedule-lock.ts:155-187 | While an edit holds its tenant, no other transaction holds that tenant's lock or holds or awaits one of its rows |
| `LockSafety.EditRowIsFree` | api/src/departures/departure-lock.ts:13-17 | Whenever an edit asks for a departure row it gets it at once |
| `LockSafety.EditsRunStays` | api/src/departures/departure-lock.ts:13-17 | In every step, no edit waits on a departure row |
| `LockSafety.RunSafe` | api/src/prisma/schedule-lock.ts:79-187 | All of that holds in every state a run reaches |
| `LockSafety.WaitsForIsLater` | api/src/prisma/schedule-lock.ts:108-119 | Waiting leads only to a later lock, or further ahead in the same queue |
| `LockSafety.NoRunDeadlocks` | api/src/prisma/schedule-lock.ts:108-119 | No run of any number of writers and edits reaches a state with a set of transactions each waiting for another of the set |
| `LockSafety.NoBookingCommits` | api/src/prisma/schedule-lock.ts:142-187 | While an edit holds its tenant, no writer of that tenant's reservations can commit |
| `LockSafety.NoDeadlock` | api/src/prisma/schedule-lock.ts:108-119 | A safe state has no set of transactions each waiting for another of the set |
| `LockSafety.SomebodyGoesOn` | api/src/prisma/schedule-lock.ts:79-187 | While any transaction is open, one can take a lock, be granted one, or commit |
| `LockSafety.NoBookingInsideEdit` | api/src/prisma/schedule-lock.ts:142-187 | From the step an edit has its lock to the step it ends, no writer of that tenant's reservations commits |
| `LockSafety.NobodyOvertakes` | api/src/prisma/schedule-lock.ts:20-21 | In one step, nobody gets ahead of a waiting transaction who was not ahead already |
| `LockSafety.WaitIsBounded` | api/src/prisma/schedule-lock.ts:20-21 | Over any run through which a transaction waits, the set ahead of it only shrinks, and its lock is granted to no more transactions than were queued before it |
| `LockSafety.GivenIff` | api/src/prisma/schedule-lock.ts:8-21 | A lock is given, at once or at the front of its queue, if and only if nobody keeps it: at a tenant's lock bookings never keep one another out, only an edit does, and an edit waits for every transaction in flight; a row is kept by whoever holds it |
| `GuardedWrite.AddedViolations` | api/src/invariants/prospective-write.ts:303-315 | The added violations: new subjects, and known ones whose magnitude grew |
| `GuardedWrite.NothingAddedToItself` | api/src/invariants/prospective-write.ts:297-315 | A list of violations adds nothing to itself |
| `GuardResults.AddedMeans` | api/src/invariants/prospective-write.ts:297-315 | For any two lists: what is added is exactly the violations whose subject was clean before, or last listed as less bad, a missing magnitude counting as 0, in the order the check lists them |
| `GuardResults.AddedIff` | api/src/invariants/prospective-write.ts:297-315 | Where a check lists each subject once: a violation is added if and only if its subject was clean or less broken before |
| `GuardResults.AnswersFitIff` | api/src/invariants/prospective-write.ts:317-337 | An answer fits if and only if it is for the same invariant and the same subjects with the same magnitudes |
| `GuardedWrite.TokenNamesItsViolations` | api/src/invariants/prospective-write.ts:317-337 | Two tokens are equal if and only if they are for the same invariant and the same set of subjects and magnitudes, in any order |
| `GuardedWrite.CheckInvariants` | api/src/invariants/prospective-write.ts:357-370 | One pass gives each invariant its own list |
| `GuardedWrite.JudgeOne` | api/src/invariants/prospective-write.ts:157-222 | One turn of the loop: pass, repair and remeasure, or refuse |
| `GuardedWrite.GuardProspectiveWrite` | api/src/invariants/prospective-write.ts:118-236 | The loop with its reassigned measurements computes the specified outcome, and a refusal rolls back |
| `GuardTheorems.CommitMeansConsent` | api/src/invariants/prospective-write.ts:118-236 | A commit means every invariant, judged in turn on what the ones before it left, had nothing added, had exactly its added set confirmed, or was repaired to nothing; the world committed is the last of those, synced once more exactly when the write syncs and something was repaired |
| `GuardResults.GuardMeans` | api/src/invariants/prospective-write.ts:118-236 | A write commits after every invariant in turn has let it on, each in the world the one before left, and is refused by the first that does not, with the refusal that invariant gives; it is synced once more where it syncs and something was repaired |
| `GuardResults.CommittedOnly` | api/src/invariants/prospective-write.ts:118-236 | Where every invariant lets the write on, it commits, in that world |
| `GuardResults.RefusedOnly` | api/src/invariants/prospective-write.ts:118-277 | Where an invariant stops it, it is refused as that invariant says: the set added, how many, whether a repair is offered and whether the page is old |
| `GuardResults.WorseIsAnswered` | api/src/invariants/prospective-write.ts:297-315 | A write that makes a known violation of its first invariant worse commits only if the set with that violation was confirmed or its repair asked for |
| `GuardTheorems.CommitsWithoutRepairsIff` | api/src/invariants/prospective-write.ts:118-236 | Where no invariant is asked to repair what the write added to it, the write commits if and only if every invariant is clean or confirmed, all in one world, and commits that world |
| `GuardTheorems.OldDriftNeverBlocks` | api/src/invariants/prospective-write.ts:297-315 | A write that changes no invariant's list commits whatever is already broken |
| `GuardLimits.AsAgreedIff` | api/src/invariants/prospective-write.ts:108-113 | For every list of invariants and every consent, over arbitrary checks, repairs, writes and syncs: a commit always leaves every invariant clean or confirmed in the world it commits, if and only if the consent asks for no repair that goes unjudged, which is any repair where the write syncs and else one of any invariant but the first |
| `GuardLimits.AsAgreedInStepIff` | api/src/invariants/prospective-write.ts:224-229 | The same for syncs that a repair leaves nothing to do: if and only if the consent asks for no repair of an invariant after the first |
| `GuardLimits.CommitsWhatWasAgreed` | api/src/invariants/prospective-write.ts:118-236 | For arbitrary checks, repairs and syncs of any kind of world: without a repair that goes unjudged, a commit leaves every invariant clean or confirmed in the world it commits |
| `GuardLimits.CommitsWhatWasAgreedInStep` | api/src/invariants/prospective-write.ts:118-236 | The same where syncs lead to a step that repairs keep: a repair of the first invariant is judged |
| `GuardLimits.OverreachingBreaks` | api/src/invariants/prospective-write.ts:157-229 | For any repair asked for that goes unjudged there are arbitrary checks, a repair and a sync under which the write commits with an invariant broken and unconfirmed |
| `GuardedSync.SecondSyncChangesNothing` | api/src/invariants/prospective-write.ts:224-229 | After a full sync of the stored departures and any repair that moves only reservations without a departure, the sync after the loop changes nothing: it creates, rewrites, marks, deletes and retimes no row |
| `GuardedSync.SyncsExist` | api/src/invariants/prospective-write.ts:224-229 | Such a sync exists for every window: every store the database takes can be read, and has IDs that no row uses |
| `GuardedSync.RideExceptionsCommitAsAgreed` | api/src/invariants/prospective-write.ts:60 | Over the stored departures, with any checks: a ride exception that commits leaves its invariant clean or confirmed in the store committed, whatever repair was asked for |
| `GuardedSync.EditsCommitAsAgreed` | api/src/invariants/prospective-write.ts:34-72 | Over the stored departures, with any checks: every list commits what was agreed where it does not begin with the departure times, or no repair of reservations is asked for |
| `TimesKept.ListsAsAgreedIff` | api/src/invariants/prospective-write.ts:34-72 | With the code's own two checks, repair and sync on one date of a ride, and any other checks: a ride exception, a cancelled departure, a station and a passenger switched off always commit what was agreed; a line, ride or extra edited do if and only if no repair of unreachable reservations is asked for |
| `TimesKept.TimesListedMeans` | api/src/invariants/checks/departure-time-kept.ts:33-61 | The one check lists every booking on a stored bus, under its bus's times |
| `TimesKept.UnreachableMeans` | api/src/invariants/checks/reservation-reachable.ts:211-244 | The other lists every booking without a bus or an instance at its time, as repairable if and only if the day has one instance and no two buses at its time |
| `TimesKept.RepairMeans` | api/src/invariants/checks/reservation-reachable.ts:104-147 | Its repair moves those asked for onto that instance and its bus, if one is stored, and nothing else |
| `TimesKept.LinkedBookingsAreNotAskedAbout` | api/src/invariants/prospective-write.ts:35-40 | A bus's time moves from under reservations linked to no bus: with their repair asked for, the write commits with each on a bus whose new times nobody confirmed |
| `TimesKept.OtherOrderRefuses` | api/src/invariants/prospective-write.ts:35-40 | With the two checks the other way round, the same answers are refused over those times |
| `GuardTheorems.AnswersEnd` | api/src/invariants/prospective-write.ts:118-236 | While nothing else changes, confirming each refusal commits after at most as many answers as there are invariants |
| `GuardTheorems.RepairRequestOutranksIff` | api/src/invariants/prospective-write.ts:157-222 | Adding a confirmation gives the same refusal again if and only if the refused set is still asked to be repaired by an invariant that can |
| `GuardTheorems.RefusalDescribes` | api/src/invariants/prospective-write.ts:238-277 | A refusal carries the token and number of what was added; it offers a repair if and only if every added violation has one, none was asked for yet and the page is current, and blames an old page if and only if the page is old and no repair was asked for |
| `Segments.RouteStationOrder` | api/src/reservations/route-segment.ts:50-66 | The map gives each station its place on the line's route |
| `Segments.OverlapIsSharedLeg` | api/src/reservations/route-segment.ts:28-41 | Two segments overlap if and only if some leg of the route carries both |
| `Grouping.GroupBy` | api/src/passengers/duplicate-passenger-merge.ts:293-308 | Grouping rows by key keeps every row, in order, under its own key, with keys as first met |
| `PassengerMerge.CanonicalIsPreferred` | api/src/passengers/duplicate-passenger-merge.ts:138-156 | Whatever order the rows come in, the canonical row is preferred to every other |
| `PassengerMerge.MarkClashing` | api/src/passengers/duplicate-passenger-merge.ts:231-248 | Every pair is compared once, and a row is marked if and only if some other row clashes with it |
| `PassengerMerge.SeatCollisionsOf` | api/src/passengers/duplicate-passenger-merge.ts:193-263 | The collisions, seat by seat |
| `PassengerMerge.CollisionsIff` | api/src/passengers/duplicate-passenger-merge.ts:186-263 | A group has a collision if and only if two of its rows hold one seat of one bus at overlapping times |
| `MergePlan.HeldByMembers` | api/src/passengers/duplicate-passenger-merge.ts:198-210 | The live tickets of a group's members |
| `MergePlan.FilterCandidates` | api/src/passengers/duplicate-passenger-merge.ts:291-299 | The rows that are active or hold reservations, and can be recognised by name and phone |
| `MergePlan.JudgeGroup` | api/src/passengers/duplicate-passenger-merge.ts:365-447 | A group is left alone, reported for disagreeing fields, reported for a seat collision, or merged |
| `MergePlan.PlanDuplicateMerge` | api/src/passengers/duplicate-passenger-merge.ts:269-463 | The plan is the verdict on every group |
| `MergePlan.PassengerTables.MergeGroup` | api/src/passengers/duplicate-passenger-merge.ts:489-530 | Reservations repointed, the canonical row filled and reactivated, the rest retired, and the count of those moved |
| `MergePlan.PassengerTables.ChangeCanonical` | api/src/passengers/duplicate-passenger-merge.ts:489-530 | Only the canonical row changes: its empty fields filled, and its status when the group holds a live row |
| `MergePlan.PassengerTables.ApplyMerge` | api/src/passengers/duplicate-passenger-merge.ts:472-538 | The groups in turn, with exact totals |
| `MergeSafety.MergeConservesReservations` | api/src/passengers/duplicate-passenger-merge.ts:472-538 | No reservation is lost or made, nothing but its passenger changes, and those of a retired row move to their canonical row |
| `MergeSafety.RepointedIsChanged` | api/src/passengers/duplicate-passenger-merge.ts:472-538 | The number reported is the number of reservations that changed passenger |
| `MergeSafety.RepointedAsPlanned` | api/src/passengers/duplicate-passenger-merge.ts:434-461 | The number the plan says is to be repointed is the number the apply reports and the number that change passenger |
| `MergeSafety.NoNewDoubleHolding` | api/src/passengers/duplicate-passenger-merge.ts:186-192 | Two overlapping active holdings of one seat under one passenger afterwards were already under one passenger before |
| `MergeAgain.ActiveRowKept` | api/src/passengers/duplicate-passenger-merge.ts:143-147 | Whoever had an active record still has one, under the same name and phone |
| `MergeAgain.MergeKeepsFields` | api/src/passengers/duplicate-passenger-merge.ts:416-432 | What any row of a group said of its passenger type, e-mail or notes, the canonical row says afterwards |
| `MergeAgain.SecondPlanHasNoGroups` | api/src/passengers/duplicate-passenger-merge.ts:289-291 | Planned again after it was applied, there is nothing left to merge |
| `MergeResults.DisagreeIff` | api/src/passengers/duplicate-passenger-merge.ts:365-380 | A field is reported if and only if two of the records differ in it: in type, or both with an e-mail or notes that differ once trimmed |
| `MergeResults.MergedIff` | api/src/passengers/duplicate-passenger-merge.ts:289-447 | A human's records are merged if and only if there are at least two candidates of that name and phone, no field differs, and no two live tickets of different records hold one seat of one bus over a common leg of its route |
| `MergeResults.ReportsMean` | api/src/passengers/duplicate-passenger-merge.ts:365-415 | Everybody else with several candidates is reported, once, with all their records and the whole reason: every field that differs, or else every seat held twice and exactly the tickets that overlap on it |
| `MergeResults.MergeMeans` | api/src/passengers/duplicate-passenger-merge.ts:416-538 | After a merge, column by column: the record with the most reservations, then the oldest, then the first by ID is kept, its empty e-mail and notes filled from the others, live if any was; the others are retired, every reservation is on the kept one, and nothing else in the tables changes |
| `MergeResults.MergeCounts` | api/src/passengers/duplicate-passenger-merge.ts:472-538 | The humans reported merged are as many as the records kept, and the rows reported retired as many as those that are |
| `MergeResults.TwinsAreMerged` | api/src/passengers/duplicate-passenger-merge.ts:416-447 | Whoever can be recognised: two such records of theirs are merged, one kept as it was and the other retired |
| `DateWindows.ShiftDay` | ui/utils/departureWindows.ts:12-16 | Shifting a date moves its day number by exactly the days asked |
| `DateWindows.WindowsCoveringDates` | ui/utils/departureWindows.ts:38-59 | The greedy scan covers every given date, each window starts and ends at one of them and is at most 62 days long, and no cover uses fewer windows |
| `DateWindows.AtLeastAsMany` | ui/utils/departureWindows.ts:38-59 | Any cover needs a window for each of a set of dates 62 or more days apart |
| `DateWindows.AddDate` | ui/utils/departureWindows.ts:47-56 | One date read stretches the last window or opens the next, and all dates so far stay covered by short windows with starts 62 or more days apart |
| `DateWindows.SplitIntoDepartureWindows` | ui/utils/departureWindows.ts:23-36 | The loop computes the specified split, and none for an empty or backward range |
| `DateWindows.SplitPartitions` | ui/utils/departureWindows.ts:18-36 | The windows start at the range's first day, end at its last, follow one another without gap or overlap, and all but the last are exactly 62 days |
| `DateWindows.EachDateOnce` | ui/utils/departureWindows.ts:18-36 | Every date of the range is in exactly one window |
| `DateWindows.GrowingKeepsWindows` | ui/utils/departureWindows.ts:18-36 | Extending the end keeps every window but the last, which starts where it did |
| `ReturnSeats.ThreeWayIsOverlapIff` | ui/utils/seatHelpers.ts:76-83 | For a forward journey the three tests are half-open overlap if and only if the other journey is forward too or is not wrapped by this one |
| `ReturnSeats.CheckSeatConflict` | ui/utils/seatHelpers.ts:44-91 | The loop with its early return says whether some active holding of the seat overlaps |
| `ReturnSeats.FreeMeansNoOverlap` | ui/utils/seatHelpers.ts:44-91 | A free seat has no active forward holding that overlaps the journey |
| `ReturnSeats.OrderedStations` | ui/utils/reservationReturnHelpers.ts:11-36 | Stations numbered from 0, boarding only at the first, drop-off only at the last |
| `ReturnResults.StationsAreListed` | ui/utils/reservationReturnHelpers.ts:11-36 | The line's departure station, its stops by their order with their own flags, and its arrival station, numbered from 0 |
| `ReturnSeats.KeepActive` | ui/utils/reservationReturnHelpers.ts:76-78 | The active holdings, in order |
| `ReturnSeats.FindFreeSeat` | ui/utils/reservationReturnHelpers.ts:93-105 | The first seat from 1 to the capacity without a conflict |
| `ReturnSeats.AllocateSeats` | ui/utils/reservationReturnHelpers.ts:81-142 | The loop holds each given seat before it looks for the next |
| `ReturnSeats.BuildReturnRequests` | ui/utils/reservationReturnHelpers.ts:46-143 | The station refusals in order, then a request for each way out with its seat and link back, or no seat |
| `ReturnSeats.SeatsAreFree` | ui/utils/reservationReturnHelpers.ts:81-142 | The seats are pairwise different, none meets an existing active holding, each is the way out's own seat if and only if that is free, and otherwise a seat of the bus |
| `ReturnSeats.NoSeatIff` | ui/utils/reservationReturnHelpers.ts:93-109 | "No seat" is said if and only if at some request its preferred seat and every seat from 1 to the capacity are held or given |
| `ReturnResults.ReturnsMean` | ui/utils/reservationReturnHelpers.ts:46-143 | What the call answers: refused exactly when the stations are not served in that order, may not be boarded or left, or when a request finds its own seat and every seat of the bus in the way or given; otherwise each request has its own seat if that is free, and else the lowest free one, for its passenger and linked by its place unless it is linked already |
| `PairedRoutes.IsSubsequence` | api/src/lines/line-pair-alignment.ts:32-43 | The greedy scan says yes if and only if the needle embeds, in order, in the haystack |
| `PairedRoutes.MergePairedRoutes` | api/src/lines/line-pair-alignment.ts:60-76 | The two scans in their order |
| `PairedRoutes.MergeHoldsBoth` | api/src/lines/line-pair-alignment.ts:49-76 | A merge conflicts if and only if neither order embeds in the other; otherwise it is one side's own order and both embed in it |
| `PairedRoutes.SecondMergeConflictsIff` | api/src/lines/line-pair-alignment.ts:60-116 | After a sync the pair conflicts again if and only if the merged order has a stop only the first line must leave out and one only the second must |
| `PairedRoutes.SyncedPairAgrees` | api/src/lines/line-pair-alignment.ts:60-116 | Lines that avoid their own endpoints always merge again after a sync |
| `PairedRoutes.SyncIsIdempotent` | api/src/lines/line-pair-alignment.ts:89-116 | Merging and writing again leaves both lines exactly as they are, with flags and numbers |
| `PairResults.OrderMeans` | api/src/lines/line-pair-alignment.ts:26-30 | A direction is compared by its stops' stations in their order, and the other one by its own read backwards |
| `PairResults.SyncMeans` | api/src/lines/line-pair-alignment.ts:82-116 | A sync writes the merged order into one line and its reverse into the other, without each line's ends, numbered from 1; a stop keeps its flags, takes the other direction's exchanged, or allows both |
| `PairedRoutes.ReversedTwice` | api/src/lines/lines.service.ts:513-525 | Reversing twice gives the route back, for stops numbered 1 to n in any listing |
| `PairedRoutes.ReturnsServeTheSameJourneys` | api/src/lines/lines.service.ts:519-523 | A journey is served on the way out if and only if it is served the other way round on the way back |
| `PairedRoutes.SyncPairedLines` | api/src/lines/lines.service.ts:777-826 | Every other line of the pair is rewritten from the edited stops, and no other line is touched |
| `PairedRoutes.MirroredOrder` | api/src/lines/lines.service.ts:771-816 | The mirrored line calls at the edited stops backwards without its own endpoints, so the pair always merges |
| `PairResults.MirrorMeans` | api/src/lines/lines.service.ts:777-826 | An edit writes the edited stops, last first, without the paired line's ends, numbered from 1, boarding and getting off exchanged |
| `RefreshSessions.SessionTable.Rotate` | api/src/auth/auth.service.ts:102-132 | The conditional revoke matches one live, unexpired session or none; only then is a successor stored |
| `RefreshSessions.SessionTable.Logout` | api/src/auth/auth.service.ts:152-168 | The session with the digest is revoked if and only if it was live, expired or not |
| `RefreshSessions.ReadAdmitsIff` | api/src/auth/auth.service.ts:73-100 | A refresh gets to its transaction if and only if the digest is that of the tenant's own live, unexpired session of an active user with no password change due, and reading changes nothing |
| `RefreshSessions.RefreshRefusedFor` | api/src/auth/auth.service.ts:84-100 | Which refusal a refresh gets from the row it read: the first that applies |
| `RefreshSessions.ExchangeMeans` | api/src/auth/auth.service.ts:102-132 | The transaction of a refresh: exchanged exactly while its session is live and unexpired, whatever was read before |
| `RefreshSessions.LogoutMeans` | api/src/auth/auth.service.ts:136-171 | A logout is admitted for the tenant's own session, and revokes it exactly while it is live |
| `RefreshSessions.ResetMeans` | api/src/users/users.service.ts:232-244 | A password reset revokes exactly the user's own live sessions |
| `RefreshSessions.StepKeeps` | api/src/auth/auth.service.ts:67-171 | Every read or write of any request keeps the sessions explained by the log |
| `RefreshSessions.ResetKeeps` | api/src/users/users.service.ts:232-244 | A password reset that revokes every live session of a user keeps the sessions explained by the log |
| `RefreshSessions.RunsKeepSessions` | api/src/auth/auth.service.ts:67-171 | Under any interleaving no session is consumed or created twice, so each has at most one successor, and the live sessions number the successful logins less the successful logouts and the sessions password resets revoked |
| `RefreshSessions.ConsumedIsSpent` | api/src/auth/auth.service.ts:104-123 | A consumed session is never exchanged or logged out again, however stale the read behind the request |

## Left out

Contracts that say less than the code does:

- Calendar.WalkVisitsEachDay: windows whose dates are before year 100 or reach 9999-12-31; there `addDays` does not give the next date, as `Calendar.AddDaysIsSuccessor` shows, and the loop does not walk the window.
- DateWindows.WindowsCoveringDates: text shaped like a date that is no date (2024-02-30) and dates within 62 days of the end of year 9999, which the source's shift moves or fails on.
- DateWindows.SplitIntoDepartureWindows: ranges that begin or end outside those same dates.
- LinkRule.KeyTextNames: texts that are no dates, and times with a dash, which no row holds; there two keys can share a text (`LinkRule.KeyTextCollides`).
- DecisionSafety.RunsKeepPairing: stores in which two extras share one ADDITIONAL, as rows from before PR 3a may; the starting state has none. `DepartureStore.Database.ReleaseAdditional` does model what happens to one.
- BackfillKeeps.BackfillKeepsPaired: dates before the agency date; the history added there is a record of what ran, not of decisions.
- BackfillStore.BackfillDepartures: that booked times are current afterwards; a past reservation keeps the times it was sold with, whatever its bus says.
- LockSafety.NoRunDeadlocks: lock timeouts are only "abort at any time with nothing written", and two tenants never share a lock key (`hashtext` collisions).
- MergePlan.PlanDuplicateMerge: the name and phone folds that decide who is one human are given functions.
- RefreshSessions.RunsKeepSessions: a digest stands for its token, so two tokens never have one digest; sessions deleted by a sandbox reset.

Parts of the system not modelled:

- SQL, Prisma, isolation levels and connections: a query is a parameter required to hold exactly the rows it selects, in its order where the code depends on one, and each statement is atomic.
- Random IDs: a supply that never gives an ID twice nor one already stored.
- Locale order: where the source compares IDs and dates with `localeCompare`, the model orders text by code units.
- Clocks, `Intl` time zones, bcrypt, JWT and SHA-256: the agency date, the time and the digest are inputs.
- Several tenants in one store, and audit columns with their triggers.
- Deleting a ride; editing, moving or cancelling a reservation; the seat check and the several seats of one booking request.
- The order of the backfill's reservations (`byTravel`): the theorems hold for any order they come in.
- The counts and reports of the sync, the backfill and the merge, beyond the ones stated above, since they are sizes of lists already described.
- The guard's `prepare` step and its message texts; the invariant checks and repairs are arbitrary functions, except the pairing check, and except the two of `TimesKept`, read there on one date of one ride with free seats and no cancelled bus. In `GuardedSync` the target a repair finds for a reservation without a departure is an arbitrary function.
- The locks a transaction takes are a fixed list from its start; which departures a writer needs is not read under the lock.
- `reconcileRideDaySchedulesToRouteTx`, `unreachableTermini`, `buildSeatMap` and `getSeatStatusColor`, which would add only easy members.
- Backfilling return legs, reservation groups and passenger e-mail.
- NestJS controllers, DTOs, React screens, exports, seeds and release scripts.
