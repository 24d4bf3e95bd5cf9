# pgcli addons: a model and its proofs

`pg addon` keeps a map of named entries in `pg.yaml` and drives containers from it. This project
models the addon commands that hold real state machines and proves what they promise over whole
runs: which commands keep a cluster together, which failures a re-run repairs, and under exactly
which condition each promise holds.

`dafny verify dfyconfig.toml` checks everything.

## Files

| file | what it holds |
|---|---|
| `Garage.dfy` | the multi-host Garage protocol: ring, entries, one turn per answer of a node |
| `GarageSafety.dfy`, `GarageRecovery.dfy`, `GarageAssembly.dfy`, `GarageGroup.dfy`, `GarageSecrets.dfy`, `GarageIdentity.dfy`, `GarageDials.dfy`, `GarageOutcomes.dfy` | what every interleaving keeps, what a re-run repairs, how the last member seeds, when a whole group is settled, who knows the secret, what an entry keeps and takes from flags, which peers are dialled, what outcomes mean |
| `GarageCommands.dfy` | the same install as sequential code on one host, tied to the protocol |
| `Peers.dfy`, `HostPort.dfy`, `Notations.dfy`, `Lists.dfy`, `Text.dfy` | printers and parsers of member lists, the order-insensitive comparison, sorting, Go string functions |
| `ClickHouse.dfy`, `ClickHouseFlags.dfy`, `ClickHouseCommands.dfy` | static cluster identity of ClickHouse: specification, that flags and options take effect, and imperative code |
| `Keeper.dfy`, `KeeperCommands.dfy`, `Quorum.dfy` | the same for ClickHouse Keeper, and the majority arithmetic |
| `Redis.dfy`, `RedisRoles.dfy`, `Etcd.dfy`, `EtcdInstalls.dfy`, `EtcdMembers.dfy` | group agreement, what installs accept and store, and the etcd member-list round trip |
| `HAProxy.dfy`, `Prometheus.dfy` | disk, container and stored entry kept in step |
| `InfluxConfig.dfy`, `InfluxEditor.dfy`, `InfluxImport.dfy` | in-place list editing as map operations, and the import rewrite |
| `BeegfsLicense.dfy` | the license-log collapse |
| `NginxSpec.dfy`, `Predixy.dfy` | backend specification parsers |
| `Runs.dfy` | runs of commands, and the rule from one step to every run |

A command is a step on an abstract state; a command that is refused leaves it. Where failing halfway
is the point (Garage, Redis, HAProxy, Prometheus) the step says how far the command came. Where code changes things in place the model has a class or a method with loops, proved
equal to a function, and the theorems are about that function.

## What turned out conditional

Several promises of the code hold only under a condition, because some path skips a check. Each has
a lemma that states the exact condition as an if-and-only-if, and a run from the empty state, or an
input, on which the promise breaks:

- Keeper peers without a port are compared with the default Raft port but stored with the entry's own
  (`Keeper.ForcedInstallExact`, `Keeper.AmbiguousRun`); a repeated install is also refused when a flag
  was passed with a value that defaults replace (`Keeper.RepeatUnforcedExact`).
- A requested empty ClickHouse setting passes for a missing key (`ClickHouse.NoOpCheckSound`,
  `ClickHouse.NoOpCheckIsFooled`).
- `--password` without `--cluster` on a stored Redis member skips the agreement check
  (`Redis.PasswordAgreementExact`, `Redis.RotationSplitsGroup`); an install that reuses a container
  without an entry can store an empty password (`Redis.EmptyPasswordExact`,
  `Redis.HalfInstallLosesPassword`).
- etcd credentials are overwritten by flags that contradict a peer (`Etcd.CredentialsExact`,
  `Etcd.ContradictionSplitsCluster`).
- A Garage secret is lost if the process is killed between `key create` and the save
  (`GarageSecrets.LossExact`, `GarageSecrets.KillLosesSecret`).
- HAProxy can start from a rejected file after a remove whose save failed, because there is no
  previous copy to put back (`HAProxy.LeavingExact`, `HAProxy.RejectedFileIsLoaded`); an install that
  changes the image and fails before saving leaves a file checked with another image
  (`HAProxy.ImageExact`, `HAProxy.UnsavedImageBreaks`), and `--reload` with another image makes the
  old image read it (`HAProxy.ReadersExact`, `HAProxy.ReloadReadsWithOldImage`).
- Prometheus recreated with other mounts and then not saved (`Prometheus.MountExact`,
  `Prometheus.UnsavedMountDisagrees`); a Prometheus
  whose reload signal failed, or whose rule files changed while `prometheus.yml` did not, is not
  reloaded by running the install again (`Prometheus.UpToDateExact`, `Prometheus.EditedRuleIsNotRead`,
  `Prometheus.FailedSignalIsNotRepeated`); another image without `--force` is stored but not run
  (`Prometheus.ImageExact`, `Prometheus.NewImageIsNotRun`).
- An import target with a newline changes the number of lines (`InfluxImport.LineCountExact`).

## Model

| member | source | states |
|---|---|---|
| `GarageSafety.AlwaysSafe` | internal/cli/addon_garage.go:108-193 | Over every interleaving of member installs, each free to fail or be killed between any two steps: at most one key per name was ever created, each by a host that had counted its replication factor among the nodes of the layout, and every grant is for the key of its own bucket name |
| `GarageSafety.NoKeyBeforeQuorum` | internal/cli/addon_garage.go:150-160 | With one replication factor shared by all installs, no key exists before that many nodes are assigned a role |
| `GarageSafety.SuccessIsLasting` | internal/cli/addon_garage.go:180-192 | An install that reports "seeded" or "by peer" left key, bucket and grant in the ring, and no later sequence of commands on any host takes them away |
| `GarageSafety.StepKeeps` | internal/cli/addon_garage.go:108-193 | One event on one host keeps the ring safe, only adds keys, buckets, grants and roles, and leaves true what every other running install relies on |
| `GarageSafety.LostRaceFails` | internal/podman/garage_cluster.go:258-281 | The layout version is an optimistic lock: once another host committed, a host holding the older version fails without touching the ring, whatever its node answers |
| `GarageDials.DialsEveryPeer` | internal/cli/addon_garage.go:124-132 | Over every run, an install past connecting, or finished without failing, has connected exactly the peers of its entry other than its own node, in list order; one still connecting or failed a first part of them |
| `GarageOutcomes.OutcomesTell` | internal/cli/addon_garage.go:161-192 | Over every interleaving: "seeded" means this host created the key and its entry holds both halves; "by peer" means it kept its password and has a user, its own or the id of the key; "pending" means credentials as stored |
| `GarageOutcomes.CommitsAtQuorum` | internal/podman/garage_cluster.go:258-281 | The layout changes only by a commit: one version up, nothing left staged, every staged role taken over, and at least the replication factor of nodes with a role |
| `GarageOutcomes.OnlyOwnRoleIsStaged` | internal/podman/garage_cluster.go:227-235 | Over every run an install touches the layout only if its entry asks for a role, and stages that zone and capacity for its own node and nothing else |
| `GarageOutcomes.RerunGivesRole` | internal/cli/addon_garage.go:134-149 | A complete re-run gives its node the zone and capacity of its entry and leaves nothing staged |
| `GarageOutcomes.IdentityHasAddress` | internal/cli/addon_garage.go:114-121 | An identity printed without an address is completed by the advertised host and RPC port, which read back from it; one with an address is kept |
| `GarageRecovery.RerunRecovers` | internal/cli/addon_garage.go:101-193 | After any history of failures, an accepted re-run on a host whose replication factor is assigned, and whose node answers, ends within 9 + peers turns with key, bucket and grant present, even while other hosts install and fail |
| `GarageRecovery.RerunIsIdempotent` | internal/cli/addon_garage.go:101-193 | After one complete re-run, every further install of that member (same zone and capacity, complete or failing anywhere) leaves the ring exactly as it is |
| `GarageRecovery.SettledRingStays` | internal/cli/addon_garage.go:124-192 | Once a set of members is settled, no interleaving of their installs changes the ring at all |
| `GarageGroup.GroupIsIdempotent` | internal/cli/addon_garage.go:101-193 | After any history, once each member of a group has completed one re-run the whole group is settled: every interleaving of their further installs, complete or failing anywhere, leaves the ring exactly as it is |
| `GarageRecovery.RankDrops` | internal/cli/addon_garage.go:108-193 | Every turn brings an install closer to its end, so each terminates |
| `GarageRecovery.NodeKeyOfNodeId` | internal/podman/garage_cluster.go:227-235 | The node a role is assigned to is the same whether the node printed its identity with or without its address |
| `GarageAssembly.LastInstallSeeds` | internal/cli/addon_garage.go:101-193 | After any history, the install whose own node brings the staged and assigned nodes to the replication factor, and whose node answers, ends within 9 + peers turns with the replication factor assigned and key, bucket and grant present, even while other hosts install and fail: no earlier member has to be run again |
| `GarageAssembly.KnownStays` | internal/podman/garage_cluster.go:237-243 | A node that was staged stays staged or assigned through every later event: staging is not lost while a quorum is awaited |
| `GarageAssembly.StagedOnceIsKnown` | internal/cli/addon_garage.go:134-149 | A member whose role was staged once counts for the last member, even if its install then failed or was killed |
| `GarageSecrets.SecretsStayPut` | internal/cli/addon_garage.go:420-432 | At every moment of every interleaving only the creating host holds a key secret, and it does hold it, running or stored, also while and after its install fails further on |
| `GarageSecrets.LossExact` | internal/cli/addon_garage.go:166-179 | A step loses the creating host its credentials if and only if it is an accepted install that replaces them, or a kill before they were saved |
| `GarageSecrets.HandoverExact` | internal/cli/addon_garage.go:290-295 | An accepted install spreads a key secret to another host if and only if the operator passed it as --root-password |
| `GarageSecrets.KilledBeforeSaving` | internal/podman/garage_cluster.go:329-335 | A process killed between creating a key and saving it takes the secret with it: no host has it and no later sequence of installs brings it back |
| `GarageSecrets.KillLosesSecret` | internal/cli/addon_garage.go:166-179 | From the empty state: a one-node install that is answered until it has created its key and is then killed; the key is in the ring and no host knows its secret |
| `GarageIdentity.IdentityFixed` | internal/cli/addon_garage.go:299-329 | Over every run a member keeps its cluster name and rpc_secret once set, its peers are only added to, its role only moves from single-node to bootstrap to join, a member with peers has an rpc_secret, and a stored node id can be dialled |
| `GarageIdentity.PeersMerge` | internal/cli/addon_garage.go:81-89 | Stored peers stay first and in place, the result is the union, and nothing is added twice |
| `GarageIdentity.PeersMergeAgain` | internal/cli/addon_garage.go:81-89 | Passing peers that are already known changes nothing |
| `GarageIdentity.AcceptedExact` | internal/cli/addon_garage.go:239-329 | The flags are accepted if and only if they agree with the stored entry and with each other and name what the mode needs |
| `GarageIdentity.InstallStores` | internal/cli/addon_garage.go:290-409 | An accepted install stores what was asked, a passed flag over the stored value over the default, with secrets generated only where the source does; a refused one changes nothing |
| `GarageCommands.RunClusterTail` | internal/cli/addon_garage.go:108-193 | The sequential code ends with the ring, entry and outcome that the protocol turns give, and unless it failed it has connected exactly the listed peers other than this node, in order |
| `GarageCommands.TailIsRun` | internal/cli/addon_garage.go:108-193 | One host running alone is the protocol with nobody else moving: the same answers bring the shared state to the same ring and entry |
| `GarageCommands.EntryRef.MergeFlags` | internal/cli/addon_garage.go:239-329 | Merging the flags into the stored entry succeeds exactly when the checks pass, and gives the merged entry |
| `GarageCommands.MergePeers` | internal/cli/addon_garage.go:81-89 | The loop computes the merged peer list |
| `GarageCommands.Manager.ConnectPeers` | internal/cli/addon_garage.go:124-132 | Success means every listed peer but this node was connected, in order; failure that those before the refusing one were |
| `GarageCommands.Manager.LayoutAssign` | internal/podman/garage_cluster.go:227-235 | One assign is the assign turn |
| `GarageCommands.Manager.LayoutApply` | internal/podman/garage_cluster.go:258-281 | Show and apply are two turns; awaiting quorum is not a failure |
| `GarageCommands.SeedRing` | internal/cli/addon_garage.go:161-192 | Key check and creation as one turn, then bucket and grant |
| `GarageCommands.OpenBucket` | internal/cli/addon_garage.go:180-192 | Bucket and grant are made whether or not the key existed |
| `Lists.SetsEqual` | internal/cli/addon_clickhouse.go:344-394 | The map-and-delete comparison returns true exactly when both lists parse, each is duplicate-free in canonical form, and they denote the same set |
| `Lists.SameMembersPartialEquivalence` | internal/cli/addon_clickhouse.go:344-394 | The comparison is symmetric and transitive, and reflexive exactly on parseable duplicate-free lists |
| `Notations.Notation.ComparisonDecidesAgreement` | internal/cli/addon_clickhouse.go:344-394 | Comparing canonical spellings decides whether two lists denote the same members |
| `Notations.Notation.NormalKeepsMembers` | internal/cli/addon_clickhouse.go:422-458 | Parsing, sorting and printing a list keeps its members, with their multiplicity |
| `Notations.NormalSetKeepsMembers` | internal/config/config.go:1863-1889 | De-duplicating and sorting endpoints keeps the set and removes repeats |
| `Peers.PeerNotationLawful` | internal/config/config.go:1652-1737 | A printed ClickHouse peer parses back to itself, for every parseable text |
| `Peers.EndpointNotationLawful` | internal/config/config.go:1837-1859 | A printed Keeper endpoint parses back to itself |
| `Peers.KeeperPeerNotationLawful` | internal/config/config.go:1898-1928 | A printed Keeper Raft peer parses back to itself |
| `Peers.DefaultPortMatters` | internal/config/config.go:1668-1697 | With an explicit port the default is not looked at; without one it is the port that is read |
| `HostPort.SplitOfJoinHostPort` | internal/config/config.go:1652-1654 | A joined host and port splits back, bracketed or not |
| `HostPort.SplitExact` | internal/cli/addon.go:2955-2966 | A text splits into host and port if and only if it is written that way, with no other bracket |
| `HostPort.AtoiOfItoa` | internal/config/config.go:1700-1737 | A printed number reads back |
| `ClickHouse.IdentityFixed` | internal/cli/addon_clickhouse.go:503-566 | From any stored entry until it is removed, no sequence of installs (forced or not), config sets and config unsets, on any entries, changes its cluster, shard, replica, host, ports or its peer and keeper sets; a single-node entry never becomes clustered |
| `ClickHouse.ReachableWellFormed` | internal/cli/addon_clickhouse.go:503-566 | Every reachable configuration holds only validated entries with duplicate-free keeper lists |
| `ClickHouse.TopologyCheckExact` | internal/cli/addon_clickhouse.go:254-286 | The check that --force does not lift accepts exactly the entries with the same identity fields and member sets |
| `ClickHouse.InstallKeepsIdentity` | internal/cli/addon_clickhouse.go:462-629 | A forced install is refused or keeps the identity of the entry it replaces |
| `ClickHouse.NormalizeKeepsMembers` | internal/cli/addon_clickhouse.go:422-458 | Normalising keeps readability and both member sets, and leaves no repeated keeper |
| `ClickHouse.NormalizeStable` | internal/cli/addon_clickhouse.go:422-458 | A normalised entry normalises to itself and its lists are sorted |
| `ClickHouse.NoOpCheckSound` | internal/cli/addon_clickhouse.go:204-250 | When the unforced check accepts and the flags apply, the result is the stored entry up to order and spelling of lists, if and only if no requested empty setting is a key the entry lacks |
| `ClickHouse.NoOpImpliesTopology` | internal/cli/addon_clickhouse.go:204-286 | Flags the unforced check accepts are never refused by the topology check |
| `ClickHouse.SettingsEqualExact` | internal/cli/addon_clickhouse.go:408-418 | Settings comparison means equality exactly when no requested empty value hides a missing key |
| `ClickHouse.SettingsEqualIsFooled` | internal/cli/addon_clickhouse.go:408-418 | Two different settings maps that compare equal |
| `ClickHouse.NoOpCheckIsFooled` | internal/cli/addon_clickhouse.go:204-250 | Any entry with the one setting y, asked for the one empty setting x: the unforced check accepts, and applying the flags would change the settings |
| `ClickHouseFlags.FlagsTakeEffect` | internal/cli/addon_clickhouse.go:135-198 | After every accepted first or forced install the unforced check agrees that the entry has what was asked for, if and only if no flag was passed with a value that defaults replace and no keeper twice |
| `ClickHouseFlags.UnpassedStays` | internal/cli/addon_clickhouse.go:135-198 | A forced install changes nothing it was not asked to |
| `ClickHouseFlags.DefaultsAre` | internal/cli/addon_clickhouse.go:503-566 | An install without flags is accepted and stores the documented defaults |
| `ClickHouseFlags.MemberIsStored` | internal/cli/addon_clickhouse.go:503-566 | An ordinary first cluster member is accepted and stored with its peer |
| `ClickHouseFlags.FirstMemberNamesAll` | internal/cli/addon_clickhouse.go:288-341 | A first cluster member must be named in full |
| `ClickHouseFlags.MembersAreReachable` | internal/cli/addon_clickhouse.go:288-341 | In every reachable configuration each cluster member listens where its peers can reach it |
| `ClickHouseFlags.LastOptionWins` | internal/cli/addon_clickhouse.go:396-406 | Options are read if and only if each is well spelled, and then the last value for a key wins |
| `ClickHouseFlags.OptionReadsBack` | internal/cli/addon_clickhouse.go:396-406 | A key and any value written KEY=VALUE read back |
| `ClickHouseFlags.ConfigSetMeans` | internal/cli/addon_clickhouse.go:1491-1512 | config set changes the settings it names, to the value given last, and nothing else of any entry |
| `ClickHouseFlags.ConfigUnsetMeans` | internal/cli/addon_clickhouse.go:1514-1531 | config unset takes out the settings it names and nothing else, and fails if one is not there |
| `ClickHouseCommands.EntryRef.ApplyInstallFlags` | internal/cli/addon_clickhouse.go:135-198 | Applying the flags in place gives the entry of which FlagsTakeEffect and UnpassedStays speak, and fails exactly on a bad version or option |
| `ClickHouseCommands.EntryRef.NormalizeClusterLists` | internal/cli/addon_clickhouse.go:422-458 | The in-place normalisation gives the normalised entry and leaves unreadable lists alone |
| `ClickHouseCommands.CheckNoOpFlags` | internal/cli/addon_clickhouse.go:204-250 | The sequence of comparisons decides the unforced check |
| `ClickHouseCommands.CheckTopologyImmutable` | internal/cli/addon_clickhouse.go:254-286 | The sequence of comparisons decides the topology check |
| `ClickHouseCommands.CompareSettings` | internal/cli/addon_clickhouse.go:408-418 | The loop over the requested keys decides the settings comparison |
| `ClickHouseCommands.ParseConfigOptions` | internal/cli/addon_clickhouse.go:396-406 | The loop over KEY=VALUE options builds the map in which the last value wins |
| `ClickHouseCommands.ReadList` | internal/cli/addon_clickhouse.go:422-458 | The parse loop succeeds exactly on readable lists and returns their members |
| `ClickHouseCommands.SortedEndpoints` | internal/config/config.go:1863-1889 | Collecting endpoints in a map, walking it in any order and sorting gives one result |
| `Keeper.ForcedInstallExact` | internal/cli/addon_clickhouse_keeper.go:175-259 | An accepted forced install keeps the Keeper identity if and only if the Raft port is the default or every passed peer carries a port |
| `Keeper.RepeatInstallExact` | internal/cli/addon_clickhouse_keeper.go:301-354 | Forcing a first install again gives the stored entry back if and only if the same condition holds, and is refused otherwise |
| `Keeper.RepeatUnforcedExact` | internal/cli/addon_clickhouse_keeper.go:136-173 | Typing a first install again without --force is accepted if and only if that condition holds and no flag was passed with a value that defaults replace |
| `Keeper.FlagsTakeEffect` | internal/cli/addon_clickhouse_keeper.go:94-134 | After every accepted first or forced install the unforced check agrees that the entry has what was asked for, if and only if ports are unambiguous and no flag was passed with a value that defaults replace |
| `Keeper.UnpassedStays` | internal/cli/addon_clickhouse_keeper.go:94-134 | A forced install changes nothing it was not asked to |
| `Keeper.FirstMemberNamesAll` | internal/cli/addon_clickhouse_keeper.go:263-379 | A first member must be given its id and address, the cluster flag is refused, and a member with peers does not listen on loopback only |
| `Keeper.IdentityFixed` | internal/cli/addon_clickhouse_keeper.go:263-379 | Over every run that does not remove the entry or pass it ambiguous ports, server id, host, ports and voter set are fixed |
| `Keeper.ReachableWellFormed` | internal/cli/addon_clickhouse_keeper.go:263-379 | Every reachable configuration holds only validated entries whose peers are spelled with their ports |
| `Keeper.AcceptedListExact` | internal/cli/addon_clickhouse_keeper.go:216-259 | A list the comparison accepts denotes the stored voters exactly when its ports are unambiguous |
| `Keeper.AmbiguousPortMovesVoter` | internal/cli/addon_clickhouse_keeper.go:216-259 | A family of inputs on which the condition fails: the install is accepted and a voter moves to another port |
| `Keeper.ExposedIsReached` | internal/cli/addon_clickhouse_keeper.go:263-379 | An ordinary first install stores such an entry |
| `Keeper.AmbiguousRun` | internal/cli/addon_clickhouse_keeper.go:263-379 | From nothing: that install, then the same peer passed without its port, and the voter set has changed |
| `Keeper.NormalizeKeepsVoters` | internal/cli/addon_clickhouse_keeper.go:241-259 | Normalising keeps the voters as the entry reads them and writes every port |
| `KeeperCommands.CheckIdentityImmutable` | internal/cli/addon_clickhouse_keeper.go:175-192 | The sequence of comparisons decides the identity check |
| `KeeperCommands.CheckNoOpFlags` | internal/cli/addon_clickhouse_keeper.go:136-173 | The sequence of comparisons decides the unforced check |
| `KeeperCommands.KeeperRef.ApplyInstallFlags` | internal/cli/addon_clickhouse_keeper.go:94-134 | Applying the flags in place gives the specified entry |
| `KeeperCommands.KeeperRef.NormalizePeers` | internal/cli/addon_clickhouse_keeper.go:241-259 | The in-place normalisation gives the normalised entry |
| `Quorum.MajoritiesIntersect` | internal/cli/addon_clickhouse_keeper.go:395-404 | Any two groups of n members that meet the n/2+1 test share a member |
| `Quorum.MajorityIsLeast` | internal/cli/addon_clickhouse_keeper.go:395-404 | With any smaller test there are two disjoint groups |
| `Quorum.OddMembersSuffice` | internal/cli/addon_clickhouse_keeper.go:596-597 | One more member in an odd cluster tolerates no more failures, in an even one exactly one more |
| `Quorum.RemovalWarnsExactlyAtTwo` | internal/cli/addon_clickhouse_keeper.go:395-404 | The removal warning is given for the two-member cluster and no other |
| `Quorum.ReachesQuorum` | internal/cli/addon_clickhouse.go:937-942 | The counting loop decides whether a majority of the endpoints is reachable |
| `Quorum.ReportsOverlap` | internal/cli/addon_clickhouse.go:937-942 | Two reports of a reachable quorum have seen a common endpoint |
| `Redis.RunKeepsRolesAndReplicas` | internal/cli/addon.go:4129-4178 | After every run, whatever fails, members of a group have one replica count and no entry is both cluster member and replica |
| `Redis.RunKeepsAgreement` | internal/cli/addon.go:4348-4488 | Over runs that may fail anywhere, also after a container was created, members of a group share one non-empty password and one replica count and no entry has two roles, as long as no completed install rotates a password behind its group or reuses an orphaned container without a password |
| `Redis.PasswordAgreementExact` | internal/cli/addon.go:4129-4131 | A completed install keeps password agreement if and only if it does not pass a new --password without --cluster to a stored member with peers |
| `Redis.EmptyPasswordExact` | internal/cli/addon.go:4433-4488 | An install that passes its checks stores an empty password if and only if it reuses a container that has no entry, without --force, and no password is passed, copied from a master or lent by a group member |
| `Redis.HalfInstallLosesPassword` | internal/cli/addon.go:4433-4488 | From nothing: an install that fails after creating its container, and the next one stores an empty password |
| `Redis.RotationSplitsGroup` | internal/cli/addon.go:4129-4131 | From nothing: two members of a group, then a new --password without --cluster for one of them, and the group has two passwords |
| `RedisRoles.InstallStores` | internal/cli/addon.go:4348-4488 | A completed install stores exactly what was asked (a local replica points at its master with its port, version and password, a remote one at the address passed, a group member shares with the first member) and leaves every other entry; any other install leaves all |
| `RedisRoles.RefusedExact` | internal/cli/addon.go:3977-4178 | Exactly these requests are refused, over flags and entries |
| `RedisRoles.InstalledAsAsked` | internal/cli/addon.go:3977-4178 | What is stored for role, group, password, port and version |
| `Redis.EntryRef.ResolveCluster` | internal/cli/addon.go:4129-4178 | The in-place resolver gives the specified entry and refuses exactly the specified cases |
| `Redis.EntryRef.ResolveReplica` | internal/cli/addon.go:3977-4027 | The in-place resolver gives the entry of which RedisRoles speaks, and refuses the same cases |
| `Redis.FindBase` | internal/cli/addon.go:4146-4158 | The loop over the sorted names finds the first other member of the group |
| `Etcd.RunKeepsAgreement` | internal/cli/addon.go:1887-2031 | After every run of installs, moves and removes, members of a cluster agree on TLS and on authentication; on means user and password, off means neither |
| `Etcd.CredentialsExact` | internal/cli/addon.go:1917-2007 | A completed install keeps one credential pair per cluster if and only if its flags do not contradict a peer |
| `Etcd.RunKeepsCredentials` | internal/cli/addon.go:1887-2031 | Runs of such installs keep one credential pair per cluster |
| `Etcd.ContradictionSplitsCluster` | internal/cli/addon.go:1917-2007 | From nothing: a second member installed with another --password is accepted, and the cluster has two passwords |
| `Etcd.SilentFlagsKeep` | internal/cli/addon.go:1917-2007 | In particular installs without --password and --root-user |
| `EtcdInstalls.InstallStores` | internal/cli/addon.go:1887-2031 | A completed install stores cluster, TLS, authentication and credentials as asked and leaves the other members; any other install leaves all |
| `EtcdInstalls.RefusedExact` | internal/cli/addon.go:1937-2031 | An install is refused if and only if a member of the cluster disagrees on authentication or TLS, or the member was initialised with the other TLS mode |
| `EtcdInstalls.LoneMemberKeepsCredentials` | internal/cli/addon.go:1984-2007 | Without user and password flags a stored authenticated member without an authenticated peer keeps its own |
| `EtcdInstalls.RerunsChangeNothing` | internal/cli/addon.go:1887-2031 | Running the installs of stored members again without flags, in any order and number, is accepted and leaves the whole settled configuration as it is |
| `Etcd.InheritedExact` | internal/cli/addon.go:1917-2007 | A member that joins authenticated peers ends with their credentials exactly when its flags do not contradict them |
| `Etcd.InstallEntry` | internal/cli/addon.go:1887-2031 | The install code, walking its peers in any map order, gives the entry of which EtcdInstalls speaks, and inherits from an authenticated peer whenever there is one |
| `Etcd.InheritCredentials` | internal/cli/addon.go:1920-1935 | The loop takes user and password from the first authenticated peer |
| `Etcd.SettleCredentials` | internal/cli/addon.go:1984-2007 | User and password end as passed or inherited, else as stored, else new; without authentication both are empty |
| `Etcd.CollectPeers` | internal/cli/addon.go:1910-1915 | The loop collects exactly the other members of the cluster |
| `EtcdMembers.BootstrapSplits` | internal/cli/addon.go:2336-2346 | Splitting the bootstrap string yields every peer once in name order and then this member; the state is "new" exactly when there are no peers |
| `EtcdMembers.BootstrapRoundTrip` | internal/cli/addon.go:2336-2346 | Reading the bootstrap string gives the members back |
| `EtcdMembers.ParseFindsCluster` | internal/cli/addon.go:2306-2317 | The assignment is found in any response whose earlier lines are not assignments of that variable |
| `EtcdMembers.RealNeighbours` | internal/cli/addon.go:2306-2317 | The name, state and URL lines of a real response are such lines, whatever the name is |
| `EtcdMembers.ResponseRoundTrip` | internal/cli/addon.go:2121-2123 | Printing the members, placing them in a response, parsing it and splitting gives the members back |
| `HAProxy.RollbackHolds` | internal/cli/addon.go:2834-2903 | Over any mix of installs, reloads, starts, stops, removes and restarts that succeed, are rejected, or fail between any two of their other actions, no container is ever started, reloaded or restarted from a configuration that no check accepted, and a stored entry or container always has a file on disk that passed; ruled out are only a kill between write and check, a failed restore, and a remove that deletes the directory and cannot save |
| `HAProxy.LeavingExact` | internal/cli/addon.go:2854-2863 | A step keeps whatever is in use on a checked file, whatever the check accepts, if and only if it leaves no new file behind: not killed after the write, a previous copy existed, and it was put back |
| `HAProxy.OnlyVettedIsLoaded` | internal/cli/addon.go:2834-2903 | Over every run of steps that leave no new file behind, so also with kills, failed restores and unsaved removes where they leave none, no unchecked configuration is loaded or left in use |
| `HAProxy.GuardExact` | internal/cli/addon.go:2854-2863 | For one given check: the instance is left startable from an unchecked file if and only if the command leaves its own file behind and no image accepts that |
| `HAProxy.RejectedFileIsLoaded` | internal/cli/addon.go:7717-7728 | A run that shows the condition is needed: a remove whose save fails, then a rejected install, then a start |
| `HAProxy.ImageExact` | internal/cli/addon.go:2895-2903 | A step keeps the stored image accepting the file on disk, whatever the check accepts, if and only if an install that fails before saving keeps the image or the text, and no new file is left behind |
| `HAProxy.UnsavedImageBreaks` | internal/cli/addon.go:2895-2903 | From nothing: an upgrade of image and file whose save fails leaves the stored entry with a file only the other image accepts |
| `HAProxy.EveryLoadByItsImage` | internal/cli/addon.go:2865-2903 | Over every run of steps that meet the next condition, whatever fails in them, each start, reload and restart was of a file that the very image that read it accepts |
| `HAProxy.ReadersExact` | internal/cli/addon.go:2865-2903 | A step keeps every image that could read the file (stored and running) accepting it, whatever the check accepts, if and only if it leaves no unchecked text behind, and a new text is checked with the image of the entry and of the container that the command leaves in place |
| `HAProxy.ReloadReadsWithOldImage` | internal/cli/addon.go:2865-2890 | From nothing: --reload with another image checks the file with that image, and the container of the old image reads it |
| `HAProxy.CompletedInstall` | internal/cli/addon.go:2865-2903 | An install that completes leaves its file on disk and read and its entry stored; with --reload on a running custom instance the container goes on, otherwise there is a new one of the image asked for |
| `HAProxy.FailedInstall` | internal/podman/haproxy.go:285-317 | An install that fails after its check leaves exactly what it had not come to |
| `HAProxy.RejectedIsUndone` | internal/cli/addon.go:2854-2863 | A rejected install or reload with a previous copy changes nothing at all |
| `HAProxy.CommandsMean` | internal/podman/haproxy.go:221-410 | Reload, start, stop and remove, when nothing fails, do what they say, and need a stored entry |
| `HAProxy.StoredImageAccepts` | internal/cli/addon.go:2834-2903 | Over every run of the same commands in which installs that fail before saving do not ask for another image, a stored entry has a file on disk that its own image accepts |
| `HAProxy.Instance.InstallInstance` | internal/cli/addon.go:2834-2903 | Snapshot, write, check, roll back, reload or recreate, save: the sequential code is the step of the model |
| `HAProxy.Instance.WriteChecked` | internal/cli/addon.go:2834-2863 | A rejected write with a previous copy leaves everything as it was |
| `HAProxy.Instance.EnsureContainer` | internal/podman/haproxy.go:285-317 | Stop, remove, create, with the state after each failure |
| `HAProxy.Instance.ReloadInstance` | internal/podman/haproxy.go:221-260 | The reload command is the step of the model |
| `HAProxy.Instance.StartInstance` | internal/podman/haproxy.go:323-360 | The start command, with a failing start, removal or creation, is the step of the model |
| `Prometheus.MountAgreesThroughout` | internal/cli/addon.go:9409-9433 | Over every run without an unrecorded recreation, the container has the rules mount exactly when the stored entry has rule files, and a reload in place is used only where the mounts are already right |
| `Prometheus.MountExact` | internal/cli/addon.go:9502-9538 | The agreement is lost by an install that recreates the container with other mounts and fails to save, and by nothing else |
| `Prometheus.CompletedInstall` | internal/cli/addon.go:9502-9538 | A completed install makes a new container if and only if none was running, --force was passed, or rule files appear or disappear; then with the stored image, the right mount and the new files; otherwise the same container goes on and reads the files exactly if the text changed |
| `Prometheus.FailedInstall` | internal/podman/prometheus.go:910-942 | An install that fails after writing leaves exactly what it had not come to |
| `Prometheus.CommandsMean` | internal/podman/prometheus.go:948-1104 | Reload, start, stop and remove, when nothing fails, do what they say, and need a stored entry |
| `Prometheus.ImageExact` | internal/cli/addon.go:9509-9538 | Container and stored entry have the same image after a step, unless a kept container is of another image than is saved, or a new one is made and not saved |
| `Prometheus.ImageAgreesThroughout` | internal/cli/addon.go:9509-9538 | Over every run without such a step they agree |
| `Prometheus.NewImageIsNotRun` | internal/cli/addon.go:9509-9538 | From nothing: another --image without --force is stored and not run |
| `Prometheus.UnsavedMountDisagrees` | internal/cli/addon.go:9502-9538 | From nothing: the first install with a rule file, when its save fails |
| `Prometheus.UpToDateThroughout` | internal/cli/addon.go:9512-9533 | Over every run without an unread write, a running container has read what is on disk |
| `Prometheus.UpToDateExact` | internal/cli/addon.go:9512-9533 | A step leaves a running container behind if and only if it fails between write and signal, or only rule files changed |
| `Prometheus.RepeatDoesNotReload` | internal/cli/addon.go:9514-9527 | A container left behind stays behind: repeating the install finds the file unchanged and never signals |
| `Prometheus.EditedRuleIsNotRead` | internal/cli/addon.go:9514-9527 | From nothing: a completed install that edits a rule file under an unchanged configuration leaves the process with the old rules |
| `Prometheus.FailedSignalIsNotRepeated` | internal/cli/addon.go:9514-9527 | From nothing: an install whose signal fails, repeated, completes without the process having read the file |
| `Prometheus.Instance.InstallInstance` | internal/cli/addon.go:9409-9538 | The sequential code is the step of the model |
| `Prometheus.Instance.EnsureContainer` | internal/podman/prometheus.go:910-942 | Stop, remove, create, with the state after each failure |
| `InfluxConfig.RunRefines` | internal/cli/addon_influxdb.go:1043-1122 | Over every run of set and unset the stored list stays valid, denotes exactly the map that the same commands make of its map, and keeps the entries no command names unchanged and in order |
| `InfluxConfig.StepRefines` | internal/cli/addon_influxdb.go:1043-1122 | One command refines its map operation, a failing one changes nothing, and entries it does not name stay unchanged and in order |
| `InfluxConfig.SetIsUpdate` | internal/cli/addon_influxdb.go:1054-1080 | Setting is map update, keeps keys unique and every other entry in order |
| `InfluxConfig.UnsetIsRemoval` | internal/cli/addon_influxdb.go:1094-1121 | Unsetting is map removal, keeps keys unique, and leaves exactly the other entries in order |
| `InfluxConfig.SetAllIsUpdate` | internal/cli/addon_influxdb.go:1054-1080 | A list of settings is an update by their map in which the last argument for a key wins; every stored entry keeps its place, and entries no argument names are unchanged and in order |
| `InfluxConfig.UnsetAllIsRemoval` | internal/cli/addon_influxdb.go:1094-1121 | A list of keys is removed when each is present in its turn, and otherwise the command fails; what is left is exactly the entries it does not name, in order |
| `InfluxConfig.SetThenUnset` | internal/cli/addon_influxdb.go:1054-1121 | Setting a fresh key and unsetting it restores the list |
| `InfluxConfig.CommandsCancel` | internal/cli/addon_influxdb.go:1043-1122 | The same for the command-line arguments NAME=VALUE and NAME |
| `InfluxConfig.ValidExact` | internal/config/config.go:3158-3178 | The textual duplicate check is uniqueness of keys |
| `InfluxConfig.OptionReadsBack` | internal/config/config.go:3125-3153 | An option written section.key=value or key=value has that section and key; a blank value or a missing = is refused |
| `InfluxEditor.Entries.SetOption` | internal/cli/addon_influxdb.go:1060-1074 | The search-and-replace on the backing array computes one set |
| `InfluxEditor.Entries.UnsetKey` | internal/cli/addon_influxdb.go:1101-1118 | The compaction that shares its array computes one unset; what lies past the result is untouched, so no entry is overwritten before it is read |
| `InfluxEditor.ConfigSet` | internal/cli/addon_influxdb.go:1043-1081 | The command returns the edited list, or nothing when an argument or the result is refused |
| `InfluxEditor.ConfigUnset` | internal/cli/addon_influxdb.go:1083-1122 | The command returns the reduced list, or nothing when a key is absent |
| `InfluxEditor.Validate` | internal/config/config.go:3158-3178 | The validation loop decides validity |
| `InfluxImport.RewriteImportContext` | internal/cli/addon_influxdb.go:870-905 | The loop computes the rewrite and ends when the input does; for a newline-free target each line is kept or names the target |
| `InfluxImport.RewriteIsLineByLine` | internal/cli/addon_influxdb.go:870-905 | The copy has as many lines; each is the original line, or names the target where the original was a directive |
| `InfluxImport.RewriteTwice` | internal/cli/addon_influxdb.go:870-905 | Rewriting to one target and then another is rewriting to the other |
| `InfluxImport.LineCountExact` | internal/cli/addon_influxdb.go:870-905 | For any target each directive adds as many lines as the target has newlines, so the count is kept if and only if there is none or no directive |
| `BeegfsLicense.ReportConserves` | internal/cli/addon_beegfs.go:586-618 | The counts add up to the number of license lines, messages are listed once in first-seen order, and each is shown by its earliest line |
| `BeegfsLicense.Collapse` | internal/cli/addon_beegfs.go:586-603 | The loop over the lines keeps order, counts and first lines faithful to what was read |
| `BeegfsLicense.LicenseReport` | internal/cli/addon_beegfs.go:586-632 | The same for the lines the filter picks and the messages it cuts out |
| `BeegfsLicense.PickedExact` | internal/cli/addon_beegfs.go:625-632 | A line is picked if and only if it names the license in any case together with an error or a warning in any case, or the certificate message as spelled |
| `BeegfsLicense.MessageDropsStamp` | internal/cli/addon_beegfs.go:590-598 | A line "[stamp] text" says the text whatever the stamp; a line without "] " says itself |
| `NginxSpec.ParseNginxBackend` | internal/cli/addon.go:7789-7834 | The two nested loops compute the specified parse |
| `NginxSpec.ReadServers` | internal/cli/addon.go:7808-7816 | The inner loop takes exactly the following parts without "=" |
| `NginxSpec.ParsePrintedSpec` | internal/cli/addon.go:7789-7834 | Parsing undoes printing for every list of fields without commas, in any order and with repeats |
| `NginxSpec.AnyKeyOrder` | internal/cli/addon.go:7789-7834 | Key order does not matter; a spec is refused exactly when it has no server or mixes backend= and backends= |
| `NginxSpec.RepeatedIsList` | internal/cli/addon.go:7789-7834 | Repeating backend= says the same as one backends= list |
| `Predixy.ParsePredixyBackends` | internal/cli/addon.go:2947-2975 | The nested loops compute the specified list |
| `Predixy.BackendsAreDistinct` | internal/cli/addon.go:2947-2975 | A list is accepted exactly when its trimmed entries are dialable and distinct, and the result is those entries in input order |
| `Predixy.GroupingDoesNotMatter` | internal/cli/addon.go:2947-2975 | Success and result depend only on the comma-joined text of a non-empty list |
| `Predixy.EmptyListDiffers` | internal/cli/addon.go:2947-2975 | The empty list is accepted although its joined text, as one value, is not |
| `Predixy.DialableExact` | internal/cli/addon.go:2955-2966 | An entry is dialable if and only if it is written host:port or [host]:port with a host and a port from 1 to 65535 |
| `Predixy.PrintedIsDialable` | internal/cli/addon.go:2955-2966 | Every printed address is dialable |

## Left out

- Podman, systemd and process calls, image pulls, file permissions and probes: external effects; they appear only as outcomes that may fail.
- Random passwords and keys, certificates, checksums: a generated secret is an arbitrary new non-empty text (`GarageSafety.Honest`, the `World` and `Chosen` parameters).
- `net.ParseIP`: a parameter; what is used of it is that addresses consist of hexadecimal digits, dots and colons, and that a dotted quad followed by a colon and more text is no address (`Peers.IpTexts`).
- The instant between a host's `key list` and `key create`: the code takes no lock, so the pair is one turn, and two hosts checking at the same instant are not modelled.
- One host's `pg.yaml` under two installs at the same time: each stored Garage entry is saved on its own; the code writes the whole file.
- Garage output parsing (`countAssignedNodes`, `layoutShowVersion`, `keyListIDForName`), image, drive, data-dir, api-port and listen flags, single-node seeding through the environment, and removal of a node from a layout: the ring's answers are parameters, and pgcli does not manage node removal.
- GarageSafety.NoKeyBeforeQuorum: speaks of the replication factor the installs work with; a host that runs with a smaller one is held to that one only (`AlwaysSafe`).
- GarageRecovery.RerunRecovers: assumes all assigned nodes are healthy when counted, and that the layout version the host read is still current when it applies; `LostRaceFails` says what happens when it is not.
- GarageAssembly.LastInstallSeeds: makes the same two assumptions.
- GarageGroup.GroupIsIdempotent: the re-runs that settle the group are one after the other; the installs after them interleave.
- ClickHouse `Config.Validate` beyond what one entry's identity needs (rectangular topology, duplicate ports between addons), path, log and configuration-directory flags: folded into "everything else succeeds". The documentation says shard ids start at 1; the code checks only that they are positive and distinct, and the model follows the code.
- `sort.Slice` is unstable and map iteration is unordered: sorting is modelled by insertion sort, which agrees wherever the order decides all pairs; loops over maps take the order as a parameter (Etcd.InstallEntry, ClickHouseCommands.SortedEndpoints).
- Redis memory and persistence knobs and image tags, etcd endpoints and certificates, HAProxy rendering, Prometheus scrape rendering: they do not take part in the properties above.
- HAProxy.RollbackHolds: file writes are atomic, and a check that passes is right about the file; a container that re-reads the file between write and check is not modelled.
- Prometheus rule directories on disk are replaced in one action, and `podman start` with a missing configuration file fails.
- BeegfsLicense.LicenseReport: lower-casing is modelled as far as a search for lower-case ASCII words can see it; the rest of `pg addon beegfs license` is output.
- The read errors of the import stream and of log reading: the model has the bytes that were read.
- MinIO, silo, rustfs, pgAdmin, Grafana, Gitea, PostgREST, node_exporter, DuckDB, DocumentDB, install summaries, listing, help texts and flag registration: repeated flag merging or output, which would only add easy members.
- Nginx reload-on-change: its running path does not save the entry, so no agreement of disk and entry is claimed.
