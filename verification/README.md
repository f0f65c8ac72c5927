# Verified model of yadro-snmp

The agent of this repository mirrors D-Bus objects into SNMP tables and tells a manager about
changes with traps; its companion edits the community line of `snmpd.conf`. This project models
both, with the descriptor bookkeeping of the agent's event loop, and proves what they promise.

## The agent

`Table` (a class over heap `Row` objects, kept in a vector sorted by name) has the source's
operations in the source's form: `lower_bound` as a binary search, insertion and erasure in the
vector, the loop of `update()` that erases while it iterates, the row walk with its loop context.
Every operation is proved equal to a function on a map from names to row data and the trap log
(`TableSpec`). `Daemon` puts six such tables on one log; it is proved to run as the pure state
machine `Agent`. The five sensor tables and the inventory table send traps; the software table
sends none and appears only where folders are compared.

A row's tuple of fields is a sequence of variants that follows a schema; `kind` stands for the
template argument and selects the overrides that virtual calls reach. Strings are sequences of
characters compared by code, as `std::string` compares bytes. `std::out_of_range` escaping from
`substr` is a false `ok` or a null row, with the state as the exception leaves it. Snapshots and
signals arrive decoded: a failed mapper call is an empty snapshot, a failed GetAll an empty map,
and maps come as sequences in their iteration order. The bus delivers PropertiesChanged to the row
that subscribed to that very path. A name is parsed into an OID as a length-prefixed index (section
7.7 of RFC 2578), and into the empty OID when the result exceeds the 128 arcs of the buffer that
`make_oid` hands to the parser.

`Terms` has the same agent from outside: object paths, the names of interfaces and properties, MIB
columns, the arcs of OIDs and the numbers in traps, written out once more and proved to be what the
model computes. `Outcomes` says in these terms what each of the four inputs does to rows and traps
after any run, and `Receiver` what every trap looks like and what a receiver knows. None of these
definitions is used by the model.

What the proofs say, for every sequence of signals and updates, starting from empty tables, and
whatever the order in which the bus calls the tables' handlers:

- A receiver that keeps the last trap value per OID holds, under the OID at which GET serves the
  state of a sensor, the state of every live sensor, "disabled" for every sensor that was live and
  is gone, and nothing for any other (`Runs.SensorTrapsMirrorRows`). For a live sensor this holds
  exactly when the name has at most 116 characters: longer names give no OID, and their rows send
  nothing (`Runs.TrapsReachGetExactlyWhenNameFits`; `Runs.LongSensorNamesAreReachable` is a run).
  `Daemon.Daemon.Poll` puts objects, walk, GET and receiver together.
- The traps of one sensor start with "normal", never repeat a value, and leave "disabled" for
  "normal" only (`Runs.SensorTrapsAreDisciplined`).
- A receiver that assumes every inventory item absent until told otherwise agrees with every row
  whose name fits (`Runs.InventoryTrapsMirrorRows`), although creation is silent. No trap about an
  item repeats the one before it, exactly for names of at most 117 characters: the traps of all
  longer ones carry the same empty OIDs (`Runs.InventoryTrapsAlternateExactlyWhen`).
- `update()` leaves exactly the snapshot's rows, in place where they survive, and a trap list given in
  closed form (`Reconcile.UpdateReconciles`, `Table.Table.Update`). A vanished sensor is told disabled
  once, a new one normal once and then its changes, the others their changes only
  (`Hearing.SensorsHearUpdate`).
- Repeating `update()` changes no row. It is silent exactly when, for every object whose row can send
  traps, the services agree on the columns that decide what the row shows in the end
  (`Repeat.UpdateTwiceIsSilentExactlyWhenAgreed`): Present and Functional of an item, and of a sensor
  the alarms up to and including the first one that `getState` finds set. A disagreement there makes
  every further update send traps (`Repeat.DisagreeingServicesAreNeverSteady` is a pair of answers); one
  on a later alarm stays hidden (`Repeat.HiddenDisagreementIsSteady`).
- A signal concerns at most one table, whatever the order of the handlers. An added object without an
  interface of the table's list is ignored; with one its properties, from all its interfaces, reach the
  fields of their names if they have the fields' types; a removal drops the row with its farewell; a
  change reaches the row of that very path only (`Outcomes.SignalsHaveTheirOutcome`).
- Every trap carries the notification of its row's table, and values that the MIB lists
  (`Receiver.EveryTrapIsAReport`).
- Each table has the rows, and has sent the traps, that it would have if it ran alone
  (`Solo.TablesRunAsIfAlone`), and no path is accepted by two of the seven (`Agent.FoldersAreIsolated`).

The critical-low alarm is shown only when no other alarm is set, since `getState` asks for the low
warning first; the model follows the code. The handlers take the row name from behind the folder and
one more character, and look only at the folder. So they throw exactly for the folder itself with an
owned interface (`Signals.SignalsThrowExactlyWhen`), and they act on the path's own row exactly when that
character is a slash (`Signals.OwnRowExactlyWhenSlash`): removing `.../powerXps0` drops the row of
`.../power/ps0` (`Signals.ForeignRemovalDropsRow`).

## snmpd.conf

`Community` has the scanner (positions and `npos` as in the source), the grammar of a community line
as decomposition into parts, and the printer. `ConfigFile` has the file as a byte string, the getline
and endl loops, and the commit by rename, with the outcome of every I/O operation as a parameter.
Results: the scanner accepts exactly the grammar, in which a body in quotes stands for what is between
them and any other for itself; printing and reading give a value back exactly when it is not empty and
has a blank or no enclosing quotes; a write changes the lines that denote another value, and those only
(`ConfigLaws.WrittenLineIs`).
A second write changes no byte exactly when the value has no newline, or the first write changed
nothing, or the printed value falls into lines none of which is a community line. It commits and asks
for a reload again exactly when the first write changed something and the value, if it has no newline,
does not round-trip, or, if it has one, has a community line in its print (`ConfigLaws.SecondWrite`).
The setter does let newlines through: with "a", newline, "b" a file grows by a line at least with every
write (`ConfigLaws.NewlineValueThatGrows`).

Nobody looks at the writes to the temporary file, so a full disk commits the beginning of the new file.
The live file is wholly old or wholly new exactly when the write does not commit, or all of it found
room, or the part that did happens to be the old file (`ConfigLaws.LiveFileIsWholeExactlyWhen`; with no
room at all the live file becomes empty, `ConfigLaws.FullDiskEmptiesFile`). The other laws are about the
text that the write means to leave.

The repository's own README describes methods GetConfig, SetConfig and ResetConfig; the code has the
property `community` instead, and the model follows the code.

## Descriptors

`FdSet.Watcher` has the two loops over the map of sources and the bit set. The second loop's inserts
all insert, because the first loop has cleared the bits of what is watched.

## Reading order

`Names`, `Items`, `Oids`, `Rules` (data and rules of a row), `Row`, `TableSpec`, `Table`, `Agent`,
`Mirror` (the invariant), `Runs` (its consequences), `Terms`, `Outcomes`, `Receiver`, `Daemon`, `Solo`,
`Reconcile`, `Repeat`, `Hearing`, `Signals`;
`Community`, `ConfigFile`, `ConfigLaws`; `FdSet`. Check everything with `dafny verify dfyconfig.toml`.

## Model

| member | source | states |
|---|---|---|
| Names.LessIsLexicographic | agent/data/table/item.hpp:149-152 | a name is below another exactly when it has the smaller character, or ends, at the first difference |
| Names.LessTransitive | agent/data/table/item.hpp:149-152 | the order of names used by the binary search is transitive |
| Names.LessTotal | agent/data/table/item.hpp:149-152 | two different names are always ordered |
| Names.SortedUnique | agent/data/table.hpp:340-343 | a set of names has one increasing enumeration, so the vector is determined by the map |
| Items.Merge | agent/data/table/item.hpp:120-130 | storing a field map keeps the number of fields and the type of each |
| Items.MergeAllAt | agent/data/table/item.hpp:120-130 | after several field maps each column has its last well-typed supply, or its old value |
| Items.ApplyingOneByOneIsApplyingTheUnion | agent/data/table.hpp:178-184 | applying maps in turn is applying once whatever they supply between them |
| Items.OrderOfAgreeingMapsIsIrrelevant | agent/data/table.hpp:178-184 | maps that do not disagree on a well-typed property give one result in any order |
| Items.MergeAllTwice | agent/data/table.hpp:98-110 | a second pass over the same answers changes nothing |
| Items.AgreeingMapsAreStable | agent/data/table.hpp:98-110 | with agreeing services no single answer changes the outcome of all |
| Oids.MakeOidInjective | agent/snmp_oid.hpp:43-79 | equal OIDs of parsed texts have equal prefixes and equal names |
| Oids.LastSlashIs | agent/yadro/sensors.cpp:103-107 | the search from the end finds the last slash of the folder |
| Oids.FolderDecides | agent/yadro/sensors.cpp:103-138 | for every folder, with a slash or without: the letter behind the last slash decides the notification, which may be missing, and the scale |
| Rules.DefaultDataIsTyped | agent/yadro/sensors.cpp:93-101 | the constructor defaults have the types of their columns |
| Rules.StateIsFirstAlarmSet | agent/yadro/sensors.cpp:226-246 | an alarm is shown exactly when it is set and none that is asked for before it is |
| Rules.RoundIsNearest | agent/yadro/sensors.cpp:302-306 | the served number is the nearest integer, halves away from zero |
| Row.Row.constructor | agent/yadro/sensors.cpp:93-146 | a new row has its name and the default data |
| Row.Row.SetField | agent/data/table/item.hpp:120-130 | only a value of the field's own type overwrites that field and no other |
| Row.Row.SetSensorFields | agent/yadro/sensors.cpp:151-181 | the nine fields are stored and one trap is sent exactly on a change of state |
| Row.Row.SetInventoryFields | agent/yadro/inventory.cpp:90-123 | the nine fields are stored and one trap is sent exactly on a change of Present or Functional |
| Row.Row.OnPropertiesChanged | agent/data/table/item.hpp:88-96 | a change signal has the effect of storing its fields |
| Row.Row.OnCreate | agent/yadro/sensors.cpp:186-191 | a new sensor reports normal, a new inventory item nothing |
| Row.Row.OnDestroy | agent/yadro/inventory.cpp:196-208 | a sensor reports disabled; an inventory item reports absence unless it showed it already |
| Row.Row.SendNotify | agent/yadro/sensors.cpp:208-221 | the trap is sent exactly when both OIDs exist |
| Row.Row.GetSnmpReply | agent/yadro/sensors.cpp:251-306 | every column serves its field, numbers scaled and rounded over the reals, the last columns what traps report, and no other column exists |
| Terms.MergeOverwrites | agent/yadro/sensors.cpp:156-164 | by name: each of the nine sensor and nine inventory properties reaches its own field if it comes with that field's type, and no other value does |
| Terms.MergeAllOverwrites | agent/data/table.hpp:178-184 | several maps reach the fields in turn, so the last one wins |
| Terms.SensorStateAfterStoring | agent/yadro/sensors.cpp:151-181 | the number that column 7 serves after a map is stored, from the names of the four alarms and what was there |
| Terms.ShownIsVisible | agent/yadro/inventory.cpp:181-188 | the numbers shown are 1 to 5 for a sensor's alarms and 1 or 2 for an item's booleans |
| Terms.DefaultIsBlank | agent/yadro/inventory.cpp:51-66 | a new row has zeros, empty texts and false flags |
| Terms.CellIs | agent/yadro/sensors.cpp:336-342 | the arcs of every cell of every table, one by one |
| Terms.SensorTrapsTell | agent/yadro/sensors.cpp:208-221 | a sensor's trap has its table's notification, one cell and the state, arc by arc; it is missing exactly for names over 116 characters |
| Terms.InventoryTrapTells | agent/yadro/inventory.cpp:116-121 | an item's trap has its notification, two cells and two truth values; the cells of names over 117 characters are empty |
| Terms.ChangeTrapsTell | agent/yadro/sensors.cpp:166-181 | storing sends one report of the new values exactly if what is visible changes |
| Terms.CreateTrapsWelcome | agent/yadro/sensors.cpp:186-191 | a new sensor is reported with state 1, a new item not at all |
| Terms.DestroyTrapsFarewell | agent/yadro/inventory.cpp:196-208 | a sensor is last reported with 0; an item with 2 and 2, unless that is what it shows |
| Terms.OwnedIsKnown | agent/yadro/inventory.cpp:217-223 | the interface filter of every table, by the names of the interfaces |
| Terms.NumbersAreNearest | agent/yadro/sensors.cpp:302-306 | the served integer is the one nearest to the number times its scale, of two the one farther from zero |
| TableSpec.DropVanishedKeeps | agent/data/table.hpp:84-96 | the first loop keeps exactly the rows that the snapshot has, unchanged |
| Table.Table.LowerBound | agent/data/table.hpp:229-236 | the binary search returns the boundary between smaller names and the others |
| Table.Table.NotAtLowerBound | agent/data/table.hpp:232-236 | if the name is not at the boundary it is not in the table at all |
| Table.Table.GetItem | agent/data/table.hpp:229-241 | the row is found or inserted with defaults and announced; the map, the log and the row's identity are as specified; a short path throws without effect |
| Table.Table.Emplace | agent/data/table.hpp:238-238 | insertion at the boundary keeps the vector strictly increasing and adds one entry to the map |
| Table.Table.DropAt | agent/data/table.hpp:251-259 | one row leaves vector and map, its farewell is sent first, and the returned position is the follower's |
| Table.Table.DropItem | agent/data/table.hpp:264-272 | the named row is removed from the map if it is there |
| Table.Table.AssignRow | agent/data/table.hpp:182-182 | storing fields in one heap row changes that entry of the map and no other |
| Table.Table.OnInterfacesAdded | agent/data/table.hpp:152-186 | the handler is the map-level step, prefix test, interface filter, exception and order of traps included |
| Table.Table.OnInterfacesRemoved | agent/data/table.hpp:191-224 | the handler is the map-level step: any owned interface listed removes the row |
| Table.Table.OnPropertiesChanged | agent/data/table/item.hpp:75-96 | a change signal reaches the row of that very path and no other |
| Table.Table.DropRowsNotIn | agent/data/table.hpp:84-96 | the erasing loop is the fold over the names in order |
| Table.Table.UpdateRowsFrom | agent/data/table.hpp:98-110 | the second loop is the fold over the snapshot, up to an exception |
| Table.Table.Update | agent/data/table.hpp:80-111 | the result is the map-level step; an old row object stays exactly when the snapshot has its path; other rows are new objects |
| Table.Table.Run | agent/data/table.hpp:80-272 | any sequence of events gives the map and the log of the fold over a map |
| Table.Table.GetNextDataPoint | agent/data/table.hpp:286-307 | the row at the context and its name, or null at the end |
| Table.Table.WalkRows | agent/data/table.hpp:277-307 | the walk yields the whole vector and then null |
| Table.Table.Walk | agent/data/table.hpp:277-307 | every name of the table is visited once, in increasing order |
| Agent.NotificationMatchesTable | agent/yadro/sensors.cpp:336-342 | the last arc of a table's notification is the last arc of its table OID, for all five |
| Agent.ScaleOfTable | agent/yadro/sensors.cpp:130-137 | tachometers are not scaled, the other sensors are served in thousandths |
| Agent.TrapCellIsGetCell | agent/yadro/sensors.cpp:103-145 | a trap reports the OID of table, entry, column and index that GET serves, if it fits the buffer |
| Agent.GetOidInjective | agent/yadro/sensors.cpp:336-342 | equal cells have equal table, column and name |
| Agent.CellsAreDisjoint | agent/yadro/inventory.cpp:67-81 | traps of different rows never report the same cell |
| Agent.FitsIsHavingCells | agent/snmp_oid.hpp:68-78 | a row has cells exactly when its name is short enough |
| Agent.FoldersAreIsolated | agent/data/table.hpp:160-160 | at most one of the seven folders is a prefix of a path |
| Agent.OutsideSignalsAreIgnored | agent/data/table.hpp:208-208 | a signal for a path outside the folder changes neither rows nor log |
| Agent.SignalsConcernOneTable | agent/data/table.hpp:152-224 | delivering a signal to all tables, in any order, is delivering it to the one that accepts the path |
| Outcomes.ChangedIsObserved | agent/data/table/item.hpp:88-96 | a change for a live row's own path overwrites the fields by name and reports a visible change; any other path does nothing |
| Outcomes.AddedIsObserved | agent/data/table.hpp:152-186 | an object without a known interface is ignored; one with any makes or finds the row behind the folder, which takes all its maps in turn and tells its story |
| Outcomes.RemovedIsObserved | agent/data/table.hpp:191-224 | a live row goes with its farewell exactly if a known interface is listed |
| Outcomes.SignalsHaveTheirOutcome | agent/data/table.hpp:152-224 | after any run, in any order of handlers: a signal has that outcome in the table whose folder its path starts with, and changes nothing else |
| Outcomes.UpdateWrites | agent/data/table.hpp:80-111 | which paths of the snapshot have a row afterwards, and every field of it |
| Outcomes.UpdateSends | agent/data/table.hpp:84-110 | the exact traps: farewells in the order of names, then the objects' stories in the snapshot's order |
| Outcomes.UpdatesHaveTheirOutcome | agent/data/table.hpp:80-111 | after any run an update has that outcome in its table and none in the others |
| Solo.StepShifts | agent/data/table.hpp:80-272 | what a table sends does not depend on what was sent before, and is under its own notification |
| Solo.TablesRunAsIfAlone | agent/data/table.hpp:80-272 | in every run each table has the rows, and has sent the traps, that it would have alone |
| Daemon.Daemon.OnSignal | agent/data/table.hpp:64-75 | the heap objects of all tables with their shared log move as the agent model does |
| Daemon.Daemon.Run | agent/main.cpp:152-161 | from the start, any run of the objects ends in the state of the model's run |
| Daemon.Daemon.Poll | agent/data/table.hpp:312-338 | after any run a walk over a table gets the specified answer to a GET of any column from every row, and for the reported columns of rows with short names it is what the traps sent so far have told |
| Mirror.ReceivedIsLastHeard | agent/snmptrap.hpp:93-135 | the receiver stores the last value of each cell and nothing before the first |
| Mirror.ReportingChangesKeepsMirror | agent/yadro/sensors.cpp:166-201 | reporting exactly the changes keeps receiver and row in step, for both kinds of row |
| Mirror.CreateTrapsReport | agent/yadro/sensors.cpp:186-191 | creation reports the change from nothing to the defaults |
| Mirror.ChangeTrapsReport | agent/yadro/inventory.cpp:105-122 | storing fields reports exactly the change of what the row shows |
| Mirror.DestroyTrapsReport | agent/yadro/inventory.cpp:196-208 | destruction reports exactly the change back to nothing |
| Mirror.OneRowChanges | agent/data/table.hpp:226-272 | a reported change of one row keeps the invariant of every row of every table |
| Runs.ApplyKeepsInv | agent/data/table.hpp:80-272 | each of the four events keeps the invariant |
| Runs.EveryRunKeepsInv | agent/data/table.hpp:80-272 | the invariant holds after every run |
| Runs.SensorTrapsMirrorRows | agent/yadro/sensors.cpp:151-221 | for every name: the receiver holds the served state, disabled, or nothing, as the sensor is live, gone, or was never seen or has no OID |
| Receiver.EveryTrapIsAReport | agent/yadro/sensors.cpp:208-221 | every trap of every run is a report of one row under its table's own notification, arc by arc, with values of the MIB |
| Receiver.ReceiverKnows | agent/yadro/sensors.cpp:151-221 | after every run, under the arcs of the cell: a sensor's visible state, 0 or nothing; an item's visible truth values, or the default |
| Runs.TrapsReachGetExactlyWhenNameFits | agent/yadro/sensors.cpp:140-145 | receiver and GET agree on a live sensor exactly when its name has at most 116 characters |
| Runs.SensorTrapsAreDisciplined | agent/yadro/sensors.cpp:166-201 | for every name: normal first, no value twice in a row, disabled only before normal |
| Runs.InventoryTrapsMirrorRows | agent/yadro/inventory.cpp:90-123 | for every name: a receiver with defaults agrees with the row if the name fits, and with its absence |
| Runs.InventoryTrapsReachGetExactlyWhen | agent/yadro/inventory.cpp:67-72 | receiver and GET agree on a live item exactly when its name fits or it shows the defaults |
| Runs.InventoryTrapsAlternateExactlyWhen | agent/yadro/inventory.cpp:105-122 | in every run two traps in a row about one item differ, the assumed default included, exactly for names that fit |
| Runs.LongSensorNamesAreReachable | agent/yadro/sensors.cpp:140-145 | a run after which a live sensor with a long name is served and was never told |
| Runs.LongItemNamesAreReachable | agent/yadro/inventory.cpp:67-72 | a run after which a present item with a long name was never told |
| Runs.LongItemNamesAreNotToldApart | agent/yadro/inventory.cpp:67-72 | a run in which two items with long names make one seem to repeat itself |
| Runs.RowsStayTyped | agent/data/table/item.hpp:120-130 | in every run every field has the type of its column |
| Reconcile.UpsertAllResult | agent/data/table.hpp:98-110 | each object of the snapshot writes its own row and no other |
| Reconcile.UpdateReconciles | agent/data/table.hpp:80-111 | exact names, data and traps after an update; nothing is thrown |
| Reconcile.UpdateLeavesTheSnapshotsNames | agent/data/table.hpp:80-111 | with an answer for every object the names are exactly the snapshot's |
| Reconcile.UnsuppliedFieldsSurvive | agent/data/table.hpp:98-110 | a surviving row keeps the properties that no service supplies |
| Reconcile.UpdateThrowsExactlyWhen | agent/data/table.hpp:98-110 | for every snapshot: an update throws exactly at the first object that a service answers for and whose path is not longer than the folder; the objects before it are written, no other |
| Repeat.UpdateTwiceSameRows | agent/data/table.hpp:80-111 | the same snapshot again changes no row |
| Repeat.UpdateTwiceIsSilent | agent/data/table.hpp:80-111 | with agreeing services the same snapshot again changes nothing and sends nothing |
| Repeat.UpdateTwiceIsSilentExactlyWhen | agent/data/table.hpp:80-111 | the same snapshot again sends nothing exactly when a second pass over the answers of each object shows no change; the rows below put that as a test of the answers |
| Repeat.InventoryIsSteadyExactlyWhenAgreed | agent/yadro/inventory.cpp:90-123 | for an item that means agreement on Present and on Functional |
| Repeat.SteadyExactlyWhenAgreed | agent/data/table.hpp:98-110 | a second pass shows no change exactly when the answers agree on the columns that decide what is shown |
| Repeat.SensorIsSteadyExactlyWhenAgreed | agent/yadro/sensors.cpp:226-246 | for a sensor those are the alarms asked for, up to and including the first one set |
| Repeat.UpdateTwiceIsSilentExactlyWhenAgreed | agent/data/table.hpp:80-111 | for both kinds: the same snapshot again sends nothing exactly when the services of every object that can send traps agree on those columns |
| Repeat.RepeatedUpdateIsSilentExactlyWhenAgreed | agent/data/table.hpp:80-111 | the same after every run of the agent |
| Repeat.DisagreeingServicesAreNeverSteady | agent/yadro/sensors.cpp:151-181 | a pair of answers, one alarm set and cleared, for which every further update sends traps |
| Repeat.HiddenDisagreementIsSteady | agent/yadro/sensors.cpp:226-246 | a pair of answers that disagree on an alarm that is not asked for, and send none |
| Repeat.UpdatesConverge | agent/data/table.hpp:80-111 | after any two runs one snapshot that supplies every field leaves equal tables |
| Signals.AddedInterfacesAmountToTheirUnion | agent/data/table.hpp:178-184 | an added object's row is its old data or the defaults overwritten once by the union of its interfaces |
| Signals.AddedInterfacesInAnyOrder | agent/data/table.hpp:178-184 | agreeing interfaces give the same row in any order |
| Signals.AddedExactlyWhenTaken | agent/data/table.hpp:160-185 | for every table: an added object behind the folder has a row afterwards exactly if one of its interfaces is listed, or no list is given; otherwise nothing changes |
| Signals.RemovedExactlyWhenTaken | agent/data/table.hpp:208-223 | a live row goes exactly when an owned interface is removed, and no other row changes |
| Signals.RemovalUndoesAddition | agent/data/table.hpp:152-224 | removing an added object leaves the rows as they were |
| Signals.SignalsThrowExactlyWhen | agent/data/table.hpp:229-231 | a signal throws, without effect, exactly for the folder itself with an interface that the table takes |
| Signals.OwnRowExactlyWhenSlash | agent/data/table.hpp:160-160 | an accepted path acts on its own row exactly when a slash follows the folder |
| Signals.RemovedActsOnTail | agent/data/table.hpp:264-272 | a removal drops the row named by what follows the character behind the folder, and no other |
| Signals.ForeignRemovalDropsRow | agent/data/table.hpp:208-222 | the removal of an object beside the folder drops a live row of another object |
| Hearing.UpdateIsHeard | agent/data/table.hpp:80-111 | what one update adds to what is heard of each row, for both kinds |
| Hearing.SensorsHearUpdate | agent/yadro/sensors.cpp:186-201 | disabled once for a vanished sensor, normal once for a new one, changes only for the others |
| Community.GetToken | snmpcfg/snmpcfg-server.cpp:58-72 | the token is found with a position exactly when it is the next word and a blank follows; a last word with the token as prefix is accepted with npos |
| Community.GetCommunityName | snmpcfg/snmpcfg-server.cpp:116-145 | the index-based scanner computes the line's community name |
| Community.GrammarIsAccepted | snmpcfg/snmpcfg-server.cpp:116-145 | every line of the grammar is accepted; a body in quotes gives what is between them, the empty text included, any other body itself |
| Community.AcceptedIsGrammar | snmpcfg/snmpcfg-server.cpp:116-145 | every accepted line is of the grammar, and its value is what its body stands for |
| Community.ScannerIsSoundAndComplete | snmpcfg/snmpcfg-server.cpp:116-145 | a name is returned exactly if the line denotes it |
| Community.PrintedIsRead | snmpcfg/snmpcfg-server.cpp:198-210 | the printed line of a non-empty value is read as the value if it has a blank, and otherwise as what the value stands for as a body |
| Community.PrintThenRead | snmpcfg/snmpcfg-server.cpp:198-210 | printing and reading gives a value back exactly when it is not empty and has a space or a tab or is not in quotes |
| ConfigFile.LinesOfJoin | snmpcfg/snmpcfg-server.cpp:203-216 | lines written with endl are read back by getline |
| ConfigFile.LinesAppend | snmpcfg/snmpcfg-server.cpp:203-216 | a written text falls into its own lines whatever follows it |
| ConfigLaws.LinesOfText | snmpcfg/snmpcfg-server.cpp:161-161 | terminated lines and a rest are read as the lines and, unless it is empty, the rest |
| ConfigLaws.TextIsLinesAndRest | snmpcfg/snmpcfg-server.cpp:161-161 | every text is such lines and a rest |
| ConfigFile.InputFile.GetLine | snmpcfg/snmpcfg-server.cpp:161-161 | one line is taken off the text, the last one also without a newline |
| ConfigFile.Configurator.ReadConfig | snmpcfg/snmpcfg-server.cpp:150-172 | the property takes the first community value of the file, or stays |
| ConfigFile.Configurator.CopyLines | snmpcfg/snmpcfg-server.cpp:198-219 | the temporary file gets as much of the rewritten lines as finds room, the flag says whether one was stale, the live file is untouched |
| ConfigFile.Configurator.WriteConfig | snmpcfg/snmpcfg-server.cpp:177-244 | live file, temporary file, reloads and outcome for every combination of failures of open, write, rename, remove and reload |
| ConfigFile.Configurator.Community | snmpcfg/snmpcfg-server.cpp:89-105 | values of 1 to 256 characters are stored and written, others change nothing |
| ConfigLaws.WrittenLines | snmpcfg/snmpcfg-server.cpp:203-216 | for every value: the lines of the written file are the old ones rewritten place by place, each printed value split at its newlines |
| ConfigLaws.WriteChangesOnlyStaleLines | snmpcfg/snmpcfg-server.cpp:202-217 | for every non-empty value: each line becomes a block in its place, itself unless it is stale; without newlines count and community places are kept and community lines have a round-tripping value |
| ConfigLaws.StaleLinesDenoteAnother | snmpcfg/snmpcfg-server.cpp:205-206 | a line is replaced exactly if, by the grammar, it denotes another value |
| ConfigLaws.WrittenLineIs | snmpcfg/snmpcfg-server.cpp:202-217 | for a value without newlines, line by line: the very text that replaces a line that denotes another value, in quotes if it has a space or a tab; other lines stay |
| ConfigLaws.SecondWrite | snmpcfg/snmpcfg-server.cpp:177-244 | exact conditions, for every non-empty value, under which a second write changes no byte and under which it asks for another reload |
| ConfigLaws.LineCountIsKeptExactlyWhen | snmpcfg/snmpcfg-server.cpp:203-216 | the number of lines is kept exactly when no printed value falls into several |
| ConfigLaws.ReadBack | snmpcfg/snmpcfg-server.cpp:150-172 | for every non-empty value, exactly when a fresh read gives the written value back |
| ConfigLaws.FirstCommunityIsFirst | snmpcfg/snmpcfg-server.cpp:161-169 | what is read is the value of the first line that denotes one |
| ConfigLaws.NewlineValueGrows | snmpcfg/snmpcfg-server.cpp:208-211 | a second write of a value with a newline changes nothing if its print has no community line, and adds lines again if it has one |
| ConfigLaws.NewlineValueGrowsForEver | snmpcfg/snmpcfg-server.cpp:208-211 | in the second case the file grows by a line at least with every write |
| ConfigLaws.SecondWriteChangesNothingExactlyWhen | snmpcfg/snmpcfg-server.cpp:177-244 | exact condition, for every non-empty value, under which a second write changes no byte |
| ConfigLaws.NewlineValueThatGrows | snmpcfg/snmpcfg-server.cpp:89-105 | a value that is let through and a file that grows with every write of it |
| ConfigLaws.LiveFileIsOldOrPrefixOfNew | snmpcfg/snmpcfg-server.cpp:218-224 | the live file stays unless both files open, the rename works and a line is stale; then it is the longest beginning of the new one that finds room |
| ConfigLaws.LiveFileIsWholeExactlyWhen | snmpcfg/snmpcfg-server.cpp:218-224 | exact condition under which the live file is wholly old or wholly new |
| ConfigLaws.FullDiskEmptiesFile | snmpcfg/snmpcfg-server.cpp:218-224 | a file, a value and a full disk for which the live file becomes empty |
| FdSet.Watcher.Emplace | agent/snmp.cpp:105-106 | an insertion happens exactly for a new key and replaces nothing |
| FdSet.Watcher.Untrack | agent/snmp.cpp:82-97 | unwanted sources are disabled and dropped, and the bits of the kept ones are cleared, no others |
| FdSet.Watcher.Track | agent/snmp.cpp:99-108 | the remaining bits are watched by new sources, and every insertion inserts |
| FdSet.Watcher.Update | agent/snmp.cpp:55-109 | exactly the wanted descriptors are watched, kept ones by their original source, dropped sources are disabled |
| FdSet.Watcher.Run | agent/snmp.cpp:55-109 | after any number of updates the last one decides, and a source survives exactly if its descriptor was wanted throughout |

## Left out

- Row.Row.GetSnmpReply: the scaling and rounding of a sensor's numbers (agent/yadro/sensors.cpp:302-306) is over the reals, without the precision of floating point and the range of `int`.
- D-Bus transport, match registration and message decoding, and the errors they raise (sdbusplus/helper.hpp).
- net-snmp itself: varbind lists, handler registration, the table-iterator helper, and the OID text parser, of which only the result is modelled; names containing a quote character, which D-Bus paths cannot have, are not told apart from others.
- The power state scalar, the software rows and the enum converters: smaller instances of the same patterns.
- The SNMP timer, the event loop, signals and argument parsing.
- Read errors in the middle of snmpd.conf, which the source takes for its end.
- Debug and log output.
