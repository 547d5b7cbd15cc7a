# MicroOVN protocols in Dafny

This project models the protocols and state machines inside MicroOVN, the clustered packaging of OVN, and
proves what they keep over all runs. Commands to OVN, OVS, the kernel, snapd and the cluster database are
abstract state with atomic steps and a failure that may strike at any of them; everything MicroOVN decides on
top of them is modelled branch by branch.

- **Schema upgrade** (`UpgradeLeader`, `UpgradeLoop`, `SchemaUpgrade`): every central node loops, reads the
  active OVSDB schema, checks whether it is the leader, polls all members and converts. All steps interleave
  with each other and with package refreshes that raise a member's version at any moment. The loop only tests
  versions for equality; that the schema never rises above what some member supports is an invariant.
- **Central databases** (`Environment`, `CentralInit`, `Generations`): who creates and who joins a database
  cluster, under any interleaving of concurrent enables, and over sequential runs of enables and disables.
- **Services** (`Services`, `CentralRace`): the services table and the enable/disable state machine with its
  rollback, and the same operations as transactions that interleave.
- **Query builder** (`Sql`, `ServiceQuery`): a small compiler from filter lists to SQL text with positional
  arguments, proved to preserve meaning against a reader and an executor of that text.
- **Config table** (`ConfigTable`): the upsert layer refines a finite map.
- **Certificates** (`CaStore`, `CaReissue`, `CaRollout`): the three-record CA transaction, the re-issue on one
  member, and the notify-all rollout, in which reading the CA and writing a file are separate steps.
- **BGP** (`BgpNames`, `BridgeMapping`, `AsnRange`, `VrfTable`, `Veth`, `BgpConfig`, `ClusterBgp`,
  `BgpResources`, `BgpSetup`, `BgpService`): allocators, names, the comma-separated mapping text, and enable as
  a saga: a script of commands of which any prefix may have run when the teardown starts.

`Text`, `Members` and `Prelude` hold what the others share. `dafny verify dfyconfig.toml` checks everything.

Code that changes things step by step is a class or a method with a loop, proved against a specification
function; the properties are lemmas about those functions, or about runs of a step relation.

Where the code does not do what it is meant to, the model keeps the code and states exactly when it does:

- The ASN formula gives the number just below the range when the range size divides the member id
  (`AsnInRangeIff`, `AsnPrivateIff`, `AsnEscapesPrivateUse`).
- The recorded bridge mapping is the whole mapping, so disabling BGP also drops entries that were there before
  it was enabled (`EarlierEntriesSurviveIff`, `EnableThenDisable`).
- A bridge that the user handed over is tagged like an own one, and teardown deletes it (`EnableThenDisable`).
- The prefix that tells a chassis' switches apart also matches hosts whose name goes on with a dash
  (`ForeignSwitchesSafeIff`, `DashedHostIsCaught`).
- Looking a row up, counting the central members and deleting the row are separate transactions, so concurrent
  disables, or a disable beside an enable that is rolled back, can remove the last central member (`LossIff`,
  `ConcurrentDisablesLoseCentral`); one operation at a time cannot (`SoloKeepsCentral`, `CentralLossIsPermitted`).
- An enable that is rolled back leaves its database on disk, and a later enable may bring that old generation
  back (`EnableKeepsOneGenerationIff`, `RolledBackEnableMixesGenerations`).
- An environment file may be written from an old reading of the table. A reading of the empty table leaves a
  member without a host, and readings that all came too late leave nobody to create the cluster (`OriginIff`,
  `SomebodyCreatesIff`, `StaleReadingLosesTheHost`, `NobodyCreates`).
- Handlers of two CA changes may overlap on one member, and the one that read the older CA may write last
  (`RolloutConvergesIff`, `ConvergesByReading`, `OvertakenHandlerWins`).
- The controller certificate comes with the chassis service but is re-issued for the switch service
  (`ReissueCoversInUseIff`, `InUseConvergesIff`).
- A stored cluster-wide BGP setting is never removed by a later request that leaves it out, and a range is
  stored without being validated (`MembersReadRequestIff`, `BackwardRangeIsAccepted`).
- A CA store that fails at a statement reports an update to its caller although it is rolled back (`StoreCa`).

## Model

| member | source | states |
|---|---|---|
| UpgradeLeader.SortByIdSorts | microovn/ovn/ovsdb/ovsdb.go:116-128 | Sorting the central rows by id orders them and loses or adds none |
| UpgradeLeader.LeaderIsLowestId | microovn/ovn/ovsdb/ovsdb.go:116-128 | The check says leader exactly for the central member with the lowest id |
| UpgradeLeader.ExactlyOneLeader | microovn/ovn/ovsdb/ovsdb.go:116-128 | A non-empty central set has one leader, whatever the order of the rows |
| UpgradeLoop.UpgradeCentralDb | microovn/ovn/ovsdb/ovsdb.go:197-301 | Earlier iterations met an error, a follower's answer or an unready member; the loop ends up to date exactly on equal versions, crashed exactly without any central member at different ones, and with a conversion exactly when the versions differ, this member leads and all are ready |
| UpgradeLoop.DelayDoubles | microovn/ovn/ovsdb/ovsdb.go:290-297 | The first sleep is 100 ms, each is twice the one before, and never above two seconds |
| SchemaUpgrade.StepKeepsInv | microovn/ovn/ovsdb/ovsdb.go:134-301 | Every interleaved step keeps what each loop remembers true enough, and the schema supported by all members |
| SchemaUpgrade.SchemaSafety | microovn/ovn/ovsdb/ovsdb.go:134-301 | Over every run the active schema stays at or below every packaged version and never moves down |
| SchemaUpgrade.ReachableSchemaIsSupported | microovn/ovn/ovsdb/ovsdb.go:134-301 | The same from every initial state, at every moment of the run |
| SchemaUpgrade.UpToDateIsTrue | microovn/ovn/ovsdb/ovsdb.go:57-109 | A loop that ends because nothing is left to do is right at that moment, although it compared an older reading |
| SchemaUpgrade.OneMemberConverts | microovn/ovn/ovsdb/ovsdb.go:243-276 | With a fixed central set all conversions of a run are attempted by one member, the one with the lowest id |
| SchemaUpgrade.LeaderIterationUpgrades | microovn/ovn/ovsdb/ovsdb.go:224-277 | Once all packages agree, the leader's error-free iteration takes a bounded number of steps and ends with the target active |
| SchemaUpgrade.LeaderCanAct | microovn/ovn/ovsdb/ovsdb.go:224-277 | Until it is done the leader always has an error-free step to take |
| SchemaUpgrade.FollowerIterationExits | microovn/ovn/ovsdb/ovsdb.go:226-239 | Once its version is active a follower's error-free iteration takes two steps and returns without an error |
| SchemaUpgrade.LoopExits | microovn/ovn/ovsdb/ovsdb.go:208-298 | A loop ends by equal versions, a tried conversion or an empty central set, and in no other way; followers, unready peers and errors begin the next iteration |
| SchemaUpgrade.RefreshRestarts | microovn/ovn/ovsdb/ovsdb.go:134-301 | A refresh never lowers a packaged version and starts the loop of a central member again |
| Environment.DefaultRemoteAddresses | microovn/ovn/environment/environment.go:72-111 | The addresses of the central members in member order, or an error when one of them is bad |
| Environment.AddressesInOrder | microovn/ovn/environment/environment.go:72-111 | The address list of two parts of the member table is the one list after the other, and fails when one does |
| Environment.InitialNbSbHost | microovn/ovn/environment/environment.go:137-163 | The only address when there is just one, otherwise the first that is not local, as it is without a colon and between brackets with one |
| Environment.GenerateEnvironment | microovn/ovn/environment/environment.go:187-232 | The written initial host is an address of a central member or a configured one, the local address is written too, both between brackets exactly when they hold a colon |
| Environment.BracketInjective | microovn/ovn/environment/environment.go:158-160 | Brackets never make two hosts look the same |
| Environment.CreatesIffAlone | snapcraft/commands/ovn-ovsdb-server-nb.start:20-22 | The start script creates a cluster exactly when the member is the only central address |
| Environment.InitialHostOfTable | microovn/ovn/environment/environment.go:137-163 | No host without central members, its own when alone, another central member's otherwise, each if and only if |
| CentralInit.StepKeepsInv | microovn/ovn/environment/environment.go:72-163 | Every step of interleaved enables keeps the readings of the table a chain, and each file and database tied to one of them |
| CentralInit.NoDoubleInitialisation | microovn/ovn/environment/environment.go:72-163 | From an empty central set at most one member ever creates a cluster, under any interleaving |
| CentralInit.OriginIff | microovn/ovn/environment/environment.go:137-232 | With the reading that was written last before its database started, a member creates the cluster if and only if only its own row was in it, has no host if and only if no row was, and joins another central member otherwise |
| CentralInit.EmptyReadingIff | microovn/ovn/environment/environment.go:137-163 | A reading of the empty table is one that comes before every insert |
| CentralInit.JoinersJoinCentral | microovn/ovn/environment/environment.go:187-232 | A member that never reads the table before the first insert creates the cluster or is sent to another central member |
| CentralInit.SomebodyCreatesIff | microovn/ovn/environment/environment.go:137-163 | A cluster comes into being exactly when some member started from a reading that was taken while its row was the only one |
| CentralInit.StaleReadingLosesTheHost | microovn/node/node.go:125-143 | A late write of a reading of the empty table leaves a started database without any host to join |
| CentralInit.NobodyCreates | microovn/node/node.go:125-143 | Two members whose rows are inserted before either reads the table join each other, and no cluster is created |
| Generations.EnableOutcome | microovn/node/node.go:105-161 | An enable keeps an old database, creates a generation exactly when no member ran central, and otherwise takes over the common one |
| Generations.FailedEnableOutcome | microovn/node/node.go:149-158 | A failed enable leaves the central set alone, and the database on disk if it had started |
| Generations.DisableOutcome | microovn/node/node.go:349-357 | A disable removes one member from the central set, and its database exactly when the file could be moved away |
| Generations.EnableKeepsOneGenerationIff | microovn/node/node.go:105-161 | An enable keeps one generation exactly when the member brings no database, or the common one, or nobody else runs central |
| Generations.OneGenerationOverRuns | microovn/node/node.go:105-161 | Over all sequential runs of successful enables and disables there is one generation, and new ones only come from an empty set |
| Generations.RolledBackEnableMixesGenerations | microovn/node/node.go:149-158 | A failed enable, another member's enable and a repeated one end with two generations |
| Services.ClusterDb.ServiceExists | microovn/database/service.mapper.go:269-302 | Found exactly when the member has a row for the service |
| Services.ClusterDb.CreateService | microovn/database/service.mapper.go:306-341 | Adds one enabled pair, or reports the duplicate or the missing member and changes nothing |
| Services.ClusterDb.DeleteService | microovn/database/service.mapper.go:345-368 | Removes exactly one enabled pair, or reports that there was none |
| Services.ClusterDb.HasServiceActive | microovn/node/node.go:192-214 | Whether the local member has the service enabled |
| Services.ClusterDb.FindService | microovn/node/node.go:217-260 | The members that run a service, in member order, or the lookup error |
| Services.ClusterDb.EnableService | microovn/node/node.go:105-161 | Success, a failed environment and a failed rollback leave exactly one new pair, every other error leaves the pairs as they were, and a rolled back activation the very rows |
| Services.ClusterDb.DisableService | microovn/node/node.go:39-97 | Success and a failed teardown remove exactly this pair, for every service, and every other error leaves the pairs as they were |
| Services.ClusterDb.DisableAllServices | microovn/node/node.go:385-393 | Of the pairs of this member exactly those stay for which a command failed or which are the last central one, and all pairs of others stay |
| Services.EnableMeaning | microovn/node/node.go:105-161 | Each error of an enable under its own condition, and what it leaves in the table |
| Services.DisableMeaning | microovn/node/node.go:39-97 | Each error of a disable under its own condition, in the order of the checks, and what it leaves in the table |
| Services.HoldersInOrder | microovn/node/node.go:217-260 | Members that run a service are listed in member order |
| Services.DisableAllKeepsCentral | microovn/node/node.go:61-83 | Disabling everything never takes the last central member away |
| Services.CentralLossIsPermitted | microovn/node/node.go:61-83 | Over every sequential run a cluster only loses its last central member in an operation with explicit permission |
| CentralRace.DisableInSteps | microovn/node/node.go:61-83 | Left alone, a disable of central is its lookup, its count and its delete, three transactions |
| CentralRace.EnableInSteps | microovn/node/node.go:105-161 | An enable whose activation fails is an insert and a rollback |
| CentralRace.OnlyThoseMoveRows | microovn/node/node.go:61-83 | A row goes with a delete or a rollback of its own member and comes with an insert, and in no other way |
| CentralRace.LossIff | microovn/node/node.go:61-83 | Concurrent runs without permission can lose central exactly when one can reach a state where every remaining central member has passed its count, or was just enabled, with its delete still due |
| CentralRace.SoloKeepsCentral | microovn/node/node.go:61-83 | With never more than one operation under way no run without permission loses central |
| CentralRace.ConcurrentDisablesLoseCentral | microovn/node/node.go:61-83 | From any two or more central members, a run without permission in which all disable at once and none is left |
| Services.DeleteUndoesInsert | microovn/node/node.go:149-158 | The rollback's delete gives back exactly the rows before the insert |
| Sql.SortByOrders | microovn/database/service.mapper.go:20-49 | The ORDER BY of the statements orders the rows and keeps each of them |
| ServiceQuery.StatementSplits | microovn/database/service.mapper.go:167-174 | Cutting a registered statement at ORDER BY and WHERE gives the three pieces that are spliced |
| ServiceQuery.BuildQuery | microovn/database/service.mapper.go:132-243 | The spliced text and arguments, and an error exactly for lists with an empty filter |
| ServiceQuery.OneFilterPrepared | microovn/database/service.mapper.go:153-160 | The prepared one-filter statement is the text that the general path would splice |
| ServiceQuery.GroupsParse | microovn/database/service.mapper.go:162-236 | The spliced condition is read as the disjunction of the filters, placeholders numbered in argument order |
| ServiceQuery.AnyOfHolds | microovn/database/service.mapper.go:162-236 | With its arguments bound that disjunction holds of a row exactly when some filter matches it |
| ServiceQuery.SplicedTextMeans | microovn/database/service.mapper.go:162-236 | Running the spliced text selects exactly the rows that match at least one filter, in statement order |
| ServiceQuery.GetServices | microovn/database/service.mapper.go:132-243 | For any list of filters the wanted rows, or the empty-filter error, and never a query failure |
| ServiceQuery.WantedMeans | microovn/database/service.mapper.go:132-243 | The result holds every row that agrees with some filter as often as it was there and nothing else, by member id and then by service |
| ServiceQuery.MemberQueryListsView | microovn/database/service.mapper.go:27-33 | Asking for one member lists exactly its enabled services, through the join |
| ConfigTable.SelectIsLookup | microovn/database/config.mapper.go:176-193 | Selecting by key is lookup in the finite map |
| ConfigTable.InsertIsUpdate | microovn/database/config.mapper.go:234-269 | Inserting a new key extends the map by it |
| ConfigTable.UpdateIsUpdate | microovn/database/config.mapper.go:300-326 | Updating by row id changes that key of the map only |
| ConfigTable.DeleteIsRemoval | microovn/database/config.mapper.go:273-296 | Deleting by key removes that key of the map, and one row |
| ConfigTable.Config.ConfigItemExists | microovn/database/config.mapper.go:197-230 | True exactly for keys of the map |
| ConfigTable.Config.GetConfigItem | microovn/database/config.mapper.go:176-193 | The row of the key, or not found |
| ConfigTable.Config.CreateConfigItem | microovn/database/config.mapper.go:234-269 | Adds a new key or reports the duplicate |
| ConfigTable.Config.UpdateConfigItem | microovn/database/config.mapper.go:300-326 | Changes one key or reports that it is missing |
| ConfigTable.Config.DeleteConfigItem | microovn/database/config.mapper.go:273-296 | Removes one key or reports that it is missing |
| ConfigTable.Config.SetConfig | microovn/config/config.go:13-31 | The upsert sets the key and never meets the duplicate or row count error |
| ConfigTable.Config.GetConfig | microovn/config/config.go:35-56 | The value of the key, or none, without an error |
| ConfigTable.Config.DeleteConfig | microovn/config/config.go:60-76 | Removes the key, and is not an error when it is missing |
| ConfigTable.RunConfig | microovn/config/config.go:13-76 | Any sequence of sets, gets and deletes answers like the finite map, keeps the table valid and reports no error |
| ConfigTable.LastTouchDecides | microovn/config/config.go:13-76 | The last set or delete of a key decides what it holds after a run, and an untouched key keeps its value |
| ConfigTable.AnswersAreLookups | microovn/config/config.go:35-56 | Each get of a run is answered from the table as it was at that moment |
| CaStore.StoreCa | microovn/ovn/certificates/certificates.go:217-288 | On success the three records are the given ones, on failure nothing changes; updated is reported exactly when a record changed, or a statement failed, or the commit of a change did |
| CaStore.GenerateNewCa | microovn/ovn/certificates/certificates.go:159-175 | Stores a generated CA as renewable |
| CaStore.SetNewCa | microovn/ovn/certificates/certificates.go:179-210 | Stores a user's CA as not renewable, and only when it is a signing CA with a key pair |
| CaStore.IsCaRenewable | microovn/ovn/certificates/certificates.go:328-354 | The stored flag decides, and a missing flag means renewable |
| CaStore.CaComesFromLastSuccess | microovn/ovn/certificates/certificates.go:217-354 | After any run of stores certificate, key and flag all come from the last successful one, other keys are untouched, and renewability agrees |
| CaStore.UpdatedIffRecordChanged | microovn/ovn/certificates/certificates.go:217-288 | A store changes the map exactly when one of the three records differs, and repeating it changes nothing |
| CaReissue.ReissueCoversInUseIff | microovn/api/certificates/common.go:17-43 | The re-issued certificates cover all certificates in use exactly when no chassis runs without the switch service |
| CaReissue.ReissuedServices | microovn/api/certificates/common.go:17-43 | Three certificates with central, the controller's with switch, and always the client's, each once |
| CaReissue.Pki.GenerateCertificate | microovn/ovn/certificates/certificates.go:407-456 | A successful issue leaves a usable pair of certificate and key from the current CA; a failed one leaves a usable pair only when it did not even empty the old certificate |
| CaReissue.Pki.ReissueAllCertificates | microovn/api/certificates/common.go:47-66 | Every service is tried, and lands in success or failed |
| CaReissue.ReissuedOrReported | microovn/api/certificates/common.go:47-66 | A service is reported as issued exactly when it was, and then has a usable pair of the current CA |
| CaReissue.AllReported | microovn/api/certificates/common.go:47-66 | Every service is in one of the two lists, as often as it was tried |
| CaRollout.MismatchIsPending | microovn/api/certificates/regenerate_ca.go:102-153 | Over any interleaving of reads, writes and changes a file that does not match has an unfinished handler, a reported failure, or a last writer that a change has overtaken; and an overtaken file never matches a fresh CA |
| CaRollout.FailureReports | microovn/api/certificates/regenerate_ca.go:139-150 | A failed CA file ends the handler with everything reported, a failed certificate is reported and the next one tried |
| CaRollout.ChangeNotifiesAll | microovn/api/certificates/regenerate_ca.go:102-137 | A new CA notifies every member once, an unchanged one nobody |
| CaRollout.RolloutConvergesIff | microovn/api/certificates/regenerate_ca.go:102-153 | With everything delivered, successful and done, a file matches the stored CA if and only if its last writer was not overtaken |
| CaRollout.OvertakenIff | microovn/ovn/certificates/certificates.go:432-453 | A file is overtaken exactly when the CA changed between its last write and the reading which that write used, as positions in the run |
| CaRollout.ConvergesByReading | microovn/api/certificates/regenerate_ca.go:102-153 | After a complete rollout of a new CA each file was written, and matches if and only if the reading of its last write was taken after the last change |
| CaRollout.UndisturbedConverges | microovn/api/certificates/regenerate_ca.go:102-153 | When no CA is stored while a handler is between reading and writing, every re-issued file of every member matches in the end |
| CaRollout.InUseConvergesIff | microovn/api/certificates/common.go:17-43 | After such a rollout of a new CA the certificates in use on a member all match if and only if no chassis runs there without the switch service |
| CaRollout.OvertakenHandlerWins | microovn/ovn/certificates/certificates.go:290-323 | A run in which everything succeeds and finishes, and an old handler writes the old CA last |
| AsnRange.AsnRangeRoundTrip | microovn/api/bgp/endpoints.go:76-82 | Parsing the stored decimal text gives back exactly the range |
| AsnRange.ParseAcceptsExactly | microovn/api/types/services.go:155-172 | The parser accepts exactly two 32-bit numerals around one dash, with their values |
| AsnRange.ValidRangeIff | microovn/api/types/services.go:176-188 | Valid are exactly the ranges of at least two 32-bit private use numbers |
| AsnRange.AsnArithmeticIsExact | microovn/bgp/redirect.go:117-152 | For every validated range the 64-bit formula never wraps and fits 32 bits |
| AsnRange.AsnCollisionIff | microovn/bgp/redirect.go:117-152 | Two members get one ASN exactly when their ids are congruent modulo the range size; the first size ids are distinct |
| AsnRange.AsnInRangeIff | microovn/bgp/redirect.go:117-152 | The ASN lies in the range exactly when the size does not divide the id |
| AsnRange.AsnPrivateIff | microovn/api/types/services.go:176-188 | The ASN is a private one unless the size divides the id and the range starts at the first private number |
| AsnRange.AsnEscapesPrivateUse | microovn/bgp/redirect.go:117-152 | A validated range and a member id whose ASN is not private |
| VrfTable.GetUsedVrfTableIds | microovn/bgp/redirect.go:227-263 | All parsed ids and the reserved ones |
| VrfTable.FindAvailableVrfTableId | microovn/bgp/redirect.go:269-285 | The least unused id from ten on, never a reserved one, none only when all 32-bit ids are used |
| VrfTable.LeastFreeIsNear | microovn/bgp/redirect.go:269-285 | That id is at most ten plus the number of used ids |
| VrfTable.LeastFreeIsUnique | microovn/bgp/redirect.go:269-285 | The used ids determine it |
| BgpNames.NamesInjective | microovn/bgp/redirect.go:53-83 | Names of switches, router ports and physical networks tell hosts and interfaces apart when the host holds no separator |
| BgpNames.RouterNamesInjective | microovn/bgp/redirect.go:53-61 | Every host has a router of its own |
| BgpNames.ChassisMatchIsSharedPrefix | microovn/bgp/redirect.go:72-76 | The prefix cut from a dummy name is the part that all switches of the host share |
| BgpNames.ChassisFilterExact | microovn/bgp/redirect.go:624-629 | Between hosts without a dash the filter takes a switch exactly when it is the host's own |
| BgpNames.ForeignSwitchesSafeIff | microovn/bgp/redirect.go:624-629 | For any two hosts, no switch of the other is taken exactly when neither dash-terminated name starts with the other |
| BgpNames.DashedHostIsCaught | microovn/bgp/redirect.go:63-76 | A host named like another plus a dash loses its switches |
| BridgeMapping.SetupExtends | microovn/bgp/redirect.go:291-354 | Setup extends the old list of mappings by one entry for each bridge, in order |
| BridgeMapping.EntryReadsIff | microovn/bgp/redirect.go:299-304 | The entry of a bridge reads as its physical network before the colon and the bridge after it, exactly when no colon is in host or bridge |
| BridgeMapping.SetupReads | microovn/bgp/redirect.go:291-354 | After setup a network is connected to a bridge exactly when it was before, or they are a planned bridge and its physical network |
| BridgeMapping.RemoveRecorded | microovn/bgp/redirect.go:677-704 | Teardown's loop keeps the unrecorded entries in order, but for empty ones at both ends |
| BridgeMapping.TrimmedEntries | microovn/bgp/redirect.go:677-704 | Trimming the commas loses empty entries at the ends and nothing else |
| BridgeMapping.RemainingIsUnrecorded | microovn/bgp/redirect.go:677-704 | Without empty entries what is left is exactly the unrecorded entries |
| BridgeMapping.RemainingInOrder | microovn/bgp/redirect.go:677-704 | What is left are the entries at exactly the positions that are not recorded, in order |
| BridgeMapping.SetupThenTeardown | microovn/bgp/redirect.go:677-704 | Of a mapping that somebody extended after setup only those additions stay that setup had not recorded |
| BridgeMapping.RoundTripFromAbsent | microovn/bgp/redirect.go:316-317 | From an absent mapping exactly the later additions stay |
| BridgeMapping.EarlierEntriesSurviveIff | microovn/bgp/redirect.go:316-317 | For any texts, teardown gives the earlier list back exactly when there was none |
| Veth.GenerateVeths | microovn/bgp/redirect.go:474-486 | The file lists both ends of one pair for every bridge, each naming the other |
| Veth.Kernel.CleanupVirtualEthernets | microovn/netplan/netplan.go:116-132 | In any order, without another error no listed interface is left and each existing pair is deleted once |
| Veth.DeleteKeepsProgress | microovn/netplan/netplan.go:116-132 | Deleting one end counts its pair once and leaves the other pairs as they were |
| BgpConfig.ParseNameList | microovn/api/types/services.go:270-300 | The non-blank names of a comma-separated list, without white space around them |
| BgpConfig.ParsedNamesAreClean | microovn/api/types/services.go:270-300 | No parsed name is empty, holds a comma or has white space at an end |
| BgpConfig.PaddedListParses | microovn/api/types/services.go:270-300 | White space around names and blank parts are lost in parsing, and nothing else is |
| BgpConfig.ValidIff | microovn/api/types/services.go:226-266 | Valid is exactly a configuration with numbers where they are given, a private range where it is given, and at least one name |
| BgpConfig.NameListRoundTrip | microovn/api/types/services.go:270-300 | Joining clean names and parsing them gives them back |
| ClusterBgp.StoreClusterConfig | microovn/api/bgp/endpoints.go:47-88 | The keys that an accepted request writes, and nothing for a rejected one |
| ClusterBgp.AcceptedIff | microovn/api/types/setup_bgp.go:10-18 | Accepted are exactly the requests that name either interfaces or bridges |
| ClusterBgp.StoredValues | microovn/api/bgp/endpoints.go:56-88 | What each key holds after an accepted request, and that all other keys stay |
| ClusterBgp.LoadClusterConfig | microovn/api/bgp/endpoints.go:195-241 | What a member reads back, with the error of a stored range that does not parse or validate |
| ClusterBgp.MembersReadRequestIff | microovn/api/bgp/endpoints.go:195-234 | Members read an accepted request back exactly when earlier requests left nothing over and the settings are valid whenever a range is stored |
| ClusterBgp.BackwardRangeIsAccepted | microovn/api/types/setup_bgp.go:10-18 | A request with the range 5-3 is accepted and stored, and no member can read it |
| BgpResources.TeardownRestores | microovn/bgp/redirect.go:603-727 | From any state that setup can leave and with any single commands failing, exactly those things that setup made are left whose own deletion failed, and everything from before but adopted bridges with their ports and the mapping |
| BgpResources.TeardownMeans | microovn/bgp/redirect.go:603-727 | Of any state, exactly the router, own tagged switches, tagged bridges with their ports, netplan ports and tagged ports whose deletion works are gone, and nothing else |
| BgpResources.TeardownKeepsForeign | microovn/bgp/redirect.go:662-709 | Of any mapping exactly the unrecorded entries stay, in order; without a record or when a command fails it does not change |
| BgpResources.CleanMeansDone | microovn/bgp/redirect.go:603-727 | A teardown that reports no error has done all that an error-free one does, and that one reports none exactly when there was a router |
| BgpSetup.ReachedIsTraceable | microovn/bgp/service.go:122-220 | Wherever setup stops, everything it left behind can be recognised by teardown |
| BgpSetup.ScriptDone | microovn/bgp/service.go:156-217 | The whole script runs exactly on a host whose bridges, interfaces, router and switches are ready, and then bridges, mapping, networks, redirect ports and daemon are in place |
| BgpSetup.EnabledMeans | microovn/bgp/service.go:122-220 | Every planned bridge is tagged, and its switch is connected to a network that the mapping connects to that bridge; networks that were mapped before still are |
| BgpSetup.AddsSucceed | microovn/bgp/redirect.go:291-327 | Adding a bridge for each connection succeeds exactly for distinct interfaces, when no interface and no bridge name is taken by a bridge, a port or another connection |
| BgpSetup.RecordedIff | microovn/bgp/redirect.go:308-320 | The mapping is recorded as soon as the first command has run, and stays so |
| BgpSetup.AddsDone | microovn/bgp/redirect.go:291-327 | Then every bridge is tagged, its interface is plugged in, and the mapping and its record hold all new entries |
| BgpSetup.TagsDone | microovn/bgp/redirect.go:329-354 | Tagging given bridges succeeds exactly when all exist, and extends the mapping the same way |
| BgpSetup.NetworksDone | microovn/bgp/redirect.go:359-420 | Router and switches are created exactly when their names are free and distinct |
| BgpSetup.RedirectDone | microovn/bgp/redirect.go:538-592 | Every redirect port exists and is tagged, and no port moves to another bridge |
| BgpService.Host.CreateExternalBridges | microovn/bgp/redirect.go:291-327 | Runs the add commands up to the first failure, wherever that is |
| BgpService.Host.CreateBridgeNetworks | microovn/bgp/redirect.go:329-354 | Runs the tag commands although it reads the mapping only once |
| BgpService.Host.CreateExternalNetworks | microovn/bgp/redirect.go:359-420 | Runs the network commands up to the first failure |
| BgpService.Host.RedirectBgp | microovn/bgp/redirect.go:460-592 | Runs the redirect commands up to the first failure, a half-applied netplan file included |
| BgpService.Host.ConfigureBird | microovn/bgp/service.go:190-269 | Writes the daemon configuration unless the user wants to; a late failure leaves it written |
| BgpService.Host.Setup | microovn/bgp/service.go:140-217 | The script of the plan that the options stand for, stopped at any command; without a failing command it only stops where the host refuses |
| BgpService.Host.EnableService | microovn/bgp/service.go:122-220 | Invalid input changes nothing; success serves what the options name; any failure is followed by a teardown of what was reached; without failing commands it succeeds exactly on a ready host |
| BgpService.Host.DisableService | microovn/bgp/service.go:223-238 | Teardown runs although stopping the daemon failed, and no error is reported exactly when every command worked |
| BgpService.Host.TeardownAll | microovn/bgp/redirect.go:603-727 | The state after all commands that did not fail, and no error exactly when none failed and there was a router |
| BgpService.Host.DeleteOwnSwitches | microovn/bgp/redirect.go:617-637 | In any order, the own switches whose deletion works are gone, the others and those of other hosts stay, and any failure is reported |
| BgpService.FailureIsCompensated | microovn/bgp/service.go:122-220 | For every failure point of enable and any failing commands of its teardown, the exact state that is left, in terms of the state before and the commands that had run |
| BgpService.FailureIsUndone | microovn/bgp/service.go:122-220 | With an error-free teardown a failed enable gives back the whole state, minus the bridges it had tagged with their ports, and minus the mapping unless the first command failed |
| BgpService.AdditionsSurvive | microovn/bgp/redirect.go:677-704 | Enable from an absent mapping, additions by somebody else, then a teardown: exactly the additions stay, in order |
| BgpService.EnableThenDisable | microovn/bgp/service.go:122-238 | Enable and an error-free disable give back the whole state, minus handed-over bridges with their ports, and with no mapping left |

## Left out

- SQL is modelled on tokens, not characters, and the fixed select-and-join part of a statement is one token.
- The query builder of the config table, updating a service row and deleting rows by member have the shape of
  what is modelled and would only add easy members.
- CA handlers: the write of one file is one step; two handlers that write parts of the same file at the same
  time are not modelled, and neither are members that join or services that are enabled during a rollout.
- X.509, PEM, TLS and MD5 are opaque; a CA is a value and a certificate is tagged with the CA that issued it.
- Running commands, snapctl, retries, time-outs, logging, HTTP handlers, the client and the CLI.
- Database start-up details: a node with a database on disk keeps its generation; northbound and southbound
  database count as one; an empty initial host is only recorded as naming nobody.
- A configured "ovn.central-ips", leaving and removing members are not part of the generation and
  initialisation runs.
- CentralInit.NoDoubleInitialisation: from an empty central set and without removals; unique addresses.
- Generations.OneGenerationOverRuns: successful operations only; the failing ones are in
  RolledBackEnableMixesGenerations and EnableKeepsOneGenerationIff.
- BgpSetup.ReachedIsTraceable: assumes that no port carries the name of a redirect port before setup; a bridge's own
  local port, logical router ports, logical switch ports and VRF options live and die with their router or
  switch and are not modelled one by one.
- Netplan: what applying a file does when one of its ports carries the name of an existing bridge, and an apply
  that changes only some ports during setup.
- BridgeMapping.SetupReads: host and bridge names without commas and colons; EntryReadsIff says exactly when an
  entry reads as it should.
- Quoting of OVS values, and white space that OVS prints around them.
- Database errors of the config layer itself occur only as failing transactions of the CA store and the
  services table.
- The order in which a map of request options is decoded does not matter and is not modelled.
- DPU detection, paths, version strings, status reports, snap packaging and documentation.
