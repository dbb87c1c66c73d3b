# Verification model of the lab controllers

This project models, in Dafny 4.11, the parts of the virtual-laboratory tool whose correctness cannot be
seen from a single function: the lab host's port allocator, the control plane's admission control and
schedulers, the limit arithmetic that the two services share, the reconciler, the creation of labs, and the
ingress route store. `dafny verify dfyconfig.toml` checks everything.

## What is modelled

**Port allocation (`PortAllocator`, `DockerHost`, `Retries`).** The probing loop and the greedy remap loop are
methods over a growing set of used ports. Their specification, `Park`, is a parking process on a partly occupied
street. It is proved order independent (for every integer request), to succeed exactly when a Hall-type
condition holds at every threshold, and to be complete and of least total displacement among all placements.
Docker is a map from container ids to port bindings; creation with its retry loop and removal are steps of runs
over it, in which no host port is ever bound twice and a removal gives back exactly the ports of its container.
A refused attempt that leaves no container behind makes the next one ask for the same ports again, so a port
that something else holds is got past only because a failed attempt does leave its container behind;
`Retries.FailedCreationHoldsFivePorts` is a creation that fails and leaves five containers and five ports taken.

**Compose documents (`Text`, `ShortPorts`, `PortTexts`, `ComposePorts`).** The short-port parser and printer
work on strings of characters, and are proved against a grammar of the mappings. The two nested remap loops
rewrite a document that is a field of an object; what they write is proved to be the parking of all entries in
visiting order, entry by entry and service by service. The file is written only when a port has moved. Skipping
the write is always sound: the table is empty exactly when every entry of the file already asks for the port
placed for it. Printing omits the protocol `tcp`, so a `tcp` mapping whose bind address contains a `/` is not
read back. The parser accepts such text, so an entry of a file that is written is readable exactly when it is
not of that kind; `ShortPorts.SlashAddressIsLost` is a concrete instance.

**Admission and scheduling (`Tables`, `Charges`, `DeployRuns`, `HostTotals`, `Scheduler`, `ControlPlane`).**
What is charged and admitted is stated in cores and MiB by `Charges`. A deployment is two steps, a check and a
commit, with registrations, lab creations, deletions and the reconciler's deletions in between. With at most one
deployment in flight per host, every lab stays within its limits over every run, also when its host is
re-registered as smaller or unbounded. Every bounded host stays within its totals throughout a run exactly when
each registration leaves room for what is then allocated and each commit that writes finds the room that its
check has seen. It stays within them now and after the commit in flight throughout exactly those runs in which
no registration lowers a total below what is allocated or in flight. `HostTotals.ShrinkingBelowUseExceeds` and
`HostTotals.ShrinkingBelowAFlight` are concrete registrations that break the first condition and only the
second. The check is not repeated at the commit, so two deployments in flight on one host can exceed a cap:
`DeployRuns.OverlappingDeploysExceedTheCap` is a concrete instance.

**Limits (`Spans`, `MemoryLimits`, `Decimals`, `LimitExamples`, `ProjectLimits`, `LabHostLimits`, `LabHostWork`,
`Coverage`, `CleanRuns`, `DisorderlyRuns`).** Both services match the same text pattern. The control plane
charges whole MiB, the lab host divides bytes over the containers of a project. The matcher is proved against a
grammar, the two readings against each other and for every decimal number, and the division to be the only fair
one.

The last five modules put the lab host into the runs. It works on each call it was sent at its own pace, writes
the limits down, raises the project and applies them, whether the control plane still waits or has given up; it
loses limits when containers go, and forgets them when a removal works, which is a step apart from the deletion
of the row. The tables account for every memory and CPU limit throughout a run exactly when each of its steps is
orderly, a condition on the state before the step: what is taken in is awaited by a deployment or carried by a
row, and what ends or is deleted leaves its limits to others. Then the CPU quotas on a bounded host are within
its total, and the memory exceeds its total by at most one MiB for each project. Clean runs, by conditions that
a caller can check, are orderly: a deployment ends only after the lab host has finished the call, with its row
if the project was raised and without if nothing was done, and rows, labs and hosts are deleted only when their
projects have been removed with nothing taken in since.

The code does not keep to that, and a host can end up enforcing twice its total in three ways, each a family of
runs with `DisorderlyRuns.TwoHundredOnAHundred` as its instance: a deployment given up after the lab host has
taken it in (`AbandonedLimitsExceedTheHost`), one whose call times out and that is taken in afterwards
(`TimedOutLimitsExceedTheHost`), and a project that is deployed again between its removal and the deletion of
its row, which the new deployment has reused (`RedeployedLimitsExceedTheHost`).

**Reconciler (`Reconciler`, `Commands`, `Settling`).** One pass visits the rows of a host, lab by lab, with row
lists read before the rows are visited, commands the lab host, and deletes from the tables that it reconciles.
Every answer of the lab host is an input of the pass: reads and listings may fail, commands and removals may be
refused. It is proved which rows a pass deletes, which commands it sends to which container and project, that
the lab host changes by these commands alone, what a pass makes of every container and project, and exactly when
a second pass has nothing left to do. Three things follow that the code does not say:

- A container that cannot be read counts as gone. A single-use container that is running loses its row exactly
  when the heartbeat does not mention it and its read is answered with an error, whatever the error;
  `Reconciler.UnreadContainerLosesItsRow` is a concrete instance.
- The schema makes project names unique within a lab only, while the lab host knows projects by name. A finished
  single-use project is kept when an earlier lab of the host has a project of the same name that the pass acts
  on; the deletion theorem says so exactly, and `Reconciler.SharedProjectNameIsKept` is a concrete instance.
- Rows of one name that want it up and down are commanded in every pass; `Settling.SharedNameNeverSettles` is a
  concrete instance. The rows of a name that survive a pass are left alone by the next exactly when they agree
  and, if they want the name up, it was there from the start and no row of it has been deleted.

**Lab creation (`LabCreation`) and ingress routes (`Ingress`).** Creating a lab commits every insert
separately and compensates for failures by hand. The route store reads, changes and rewrites a state file and
renders the proxy's configuration from it; the configuration serves every stored hostname exactly when no two
of them share a route id.

Assumptions taken over from the request validators: ports of container requests lie in 1..65535; limits, totals
and charges are not negative; the CPU count of an environment is a whole number, so the conversion to `int` when
its row is written changes nothing. Container ids and Docker network ids are fresh. Database statements succeed,
except that an update of a vanished row or an insert for a vanished lab writes nothing. Deleting a row takes
along the rows that refer to it, by the cascades that the foreign keys declare: the network rows of a lab, on
which the compensation of a failed creation (control_plane/controller.py:754) relies, and the labs of a host
with all their rows, on which deleting a host (control_plane/controller.py:596) relies. A SQLite database, which
the session also accepts, does not enforce them unless it is told to. On the lab host of the reconciler a
command that is not refused takes effect: a start revives anything but a paused or dead container, a stop ends
anything, bringing a project up leaves all its containers running, at least one, and bringing it down leaves
none; the results on desired states and settling name the passes without refusals for which they hold. Each
module keeps the columns of a table that its operations read or write.

## Model

| member | source | states |
|---|---|---|
| PortAllocator.NextFree | lab_host/docker_interface.py:95-101 | a returned port is free and all ports from the start up to it are taken; no result means everything up to 65535 is taken |
| PortAllocator.NextAvailableHostPort | lab_host/docker_interface.py:95-101 | the probing loop returns the least free port at or above max(1, start) and fails exactly when there is none, without wrapping around |
| PortAllocator.Assign | lab_host/docker_interface.py:115-120 | a free desired port is kept, whatever its value; a taken one is replaced by the least free legal port above it, or fails |
| PortAllocator.RemapRequestedPorts | lab_host/docker_interface.py:104-128 | the remap loop fails exactly when the parking process fails, changes nothing but host ports, and its table has exactly the displaced ports as keys |
| PortAllocator.ParkIsGreedy | lab_host/docker_interface.py:114-126 | every request keeps its port unless an earlier request or an old binding holds it, and otherwise gets the least legal port nobody holds |
| PortAllocator.ParkIsInjective | lab_host/docker_interface.py:114-126 | assigned ports are pairwise distinct and disjoint from the ports in use before |
| PortAllocator.ParkStaysInRange | lab_host/docker_interface.py:114-126 | legal requests get legal ports, none below the one desired |
| PortAllocator.SwapFirstTwo | lab_host/docker_interface.py:114-126 | exchanging two neighbouring requests changes neither success nor the set of ports taken |
| PortAllocator.ParkIsOrderIndependent | lab_host/docker_interface.py:104-128 | any permutation of the requests succeeds or fails alike and takes the same set of ports |
| PortAllocator.DisplacementIsOrderIndependent | lab_host/docker_interface.py:104-128 | permuted requests are moved by the same total amount |
| PortAllocator.DisplacementOfOneMore | lab_host/docker_interface.py:115-122 | the displacement is the sum over the requests of how far each port is from the one asked for |
| PortAllocator.ParkSucceedsExactlyWhenRoom | lab_host/docker_interface.py:104-128 | the remap succeeds if and only if above every threshold there are at least as many free ports as requests |
| PortAllocator.NobodyPassesAFreePort | lab_host/docker_interface.py:95-101 | a port that is free at the end was never probed past |
| PortAllocator.ParkIsLowest | lab_host/docker_interface.py:104-128 | above every threshold the remap occupies no more ports than any other placement does |
| PortAllocator.ParkIsCompleteAndOptimal | lab_host/docker_interface.py:104-128 | if the requests can be placed at all the remap places them, with the least total displacement |
| PortAllocator.ParkPrefix | lab_host/docker_interface.py:99-100 | once a request cannot be placed the whole list fails |
| DockerHost.BuildPorts | lab_host/mappings.py:30-40 | no dictionary for no requests; otherwise the dictionary the last request of each key wins |
| DockerHost.LastRequestWins | lab_host/mappings.py:30-40 | exactly the requested pairs of container port and protocol are bound, under the key that spells them, each to the host port of its last request |
| DockerHost.KeyIsPortAndProtocol | lab_host/mappings.py:36-38 | two requests are published under one key if and only if their container ports and protocols are both the same; the key is the numeral of the port, a slash and the protocol |
| DockerHost.NewBindings | lab_host/docker_interface.py:690-694 | distinct unused host ports give bindings that use each port once and none in use, although equal keys collapse |
| DockerHost.LabHost.UsedHostPorts | lab_host/docker_interface.py:70-92 | the scan collects every all-digit host port of every binding of every container |
| DockerHost.UsedPortsAreTheBoundOnes | lab_host/docker_interface.py:70-92 | a port counts as used exactly when a binding of some container has a text of nothing but digits that is worth it |
| DockerHost.LabHost.CreateContainer | lab_host/docker_interface.py:690-713 | the remap and the at most five attempts, each refused one followed by another remap of the ports it used, end as the specification says |
| DockerHost.LabHost.DestroyContainer | lab_host/docker_interface.py:788-790 | a removal that works takes exactly the ports of that container out of the ports in use, any other call changes no port |
| DockerHost.DestroyFreesItsPorts | lab_host/docker_interface.py:788-790 | while no port is bound twice, removing a container frees its own host ports and keeps those of all others |
| DockerHost.DestroyUndoesCreate | lab_host/docker_interface.py:788-790 | creating a container and removing it again leaves the ports in use as they were |
| DockerHost.RunsKeepPortsExclusive | lab_host/docker_interface.py:690-713 | over every run of creations and removals, with any daemon answers, no host port is bound twice within or across containers |
| DockerHost.StartedContainerIsPublished | lab_host/docker_interface.py:690-713 | a started container publishes each requested container port and protocol, under the key that spells them, at or above the host port last requested for the two and at most at 65535 |
| Retries.ReadyPortsStay | lab_host/docker_interface.py:708-711 | the remap after a refusal that has left nothing behind chooses the same ports again |
| Retries.FirstOtherAnswerDecides | lab_host/docker_interface.py:696-716 | the first of at most five answers that is not a refused port decides how a creation ends; five refusals make it fail |
| Retries.FirstRemapDecides | lab_host/docker_interface.py:690-694 | a creation whose first remap finds no room fails with the daemon as it was |
| Retries.CleanRefusalsChangeNothing | lab_host/docker_interface.py:698-716 | a creation whose attempts are all refused and leave nothing behind fails with the daemon as it was |
| Retries.AnswerAfterCleanRefusals | lab_host/docker_interface.py:696-716 | after refusals that leave nothing behind a started container has the ports of the first remap, as has one that another failure leaves behind; nothing else is added |
| Retries.LeftoverMovesItsPorts | lab_host/docker_interface.py:708-711 | after a refusal that leaves its container behind a request keeps its port if and only if the container has not bound it, as a later request has its key, and no earlier request has moved onto it; otherwise it moves up |
| Retries.LeftoversPileUp | lab_host/docker_interface.py:698-716 | every container that an attempt leaves behind stays when the creation fails |
| Retries.FailedCreationHoldsPorts | lab_host/docker_interface.py:698-716 | on an empty host a failed creation of one port can leave a container for each attempt, which hold as many consecutive ports |
| Retries.FailedCreationHoldsFivePorts | lab_host/docker_interface.py:698-716 | for instance 8080 to 8084 |
| ShortPorts.ParseResultIsParsed | lab_host/docker_interface.py:131-155 | a parsed bind address has no colon, the protocol is not empty and has no slash, the host port is not negative |
| PortTexts.ParseIsSound | lab_host/docker_interface.py:131-155 | every text that is parsed consists of spaces, an address and a colon if there is an address, two numbers with a colon between them, a slash and a protocol if there is one, and spaces, and these parts make the mapping |
| PortTexts.ParseIsComplete | lab_host/docker_interface.py:131-155 | every text with such parts is parsed as the mapping of these parts, so they are unique |
| PortTexts.ContainerPortAlone | lab_host/docker_interface.py:143-155 | a container port alone, with a protocol or without, is not a mapping |
| PortTexts.RewrittenText | lab_host/docker_interface.py:158-169 | a mapping is rewritten as its address unless that is empty, the new host port and the container port without leading zeros, and its protocol unless that is tcp |
| ShortPorts.PrintThenParse | lab_host/docker_interface.py:131-169 | parsing the printed form of any mapping the parser yields, with any host port, returns it if and only if it is not a tcp one with a slash in its address; in that case it is not parsed |
| ShortPorts.ParsePrintParse | lab_host/docker_interface.py:131-169 | parse, print, parse returns the first result exactly under that condition, an empty address counting as none |
| ShortPorts.SlashAddressIsLost | lab_host/docker_interface.py:137-141 | a concrete text that parses and whose printed form does not |
| ShortPorts.ExplicitTcp | lab_host/docker_interface.py:167-169 | every mapping is read back once its protocol is written out |
| ShortPorts.NormalFormIsStable | lab_host/docker_interface.py:193-214 | rewriting a text twice gives what rewriting it once gives, for every text |
| Text.DecimalRoundTrip | lab_host/docker_interface.py:147 | reading the decimal numeral of a number returns the number |
| Text.ParseOfConcat | lab_host/docker_interface.py:147 | two numerals written together are worth the first times a power of ten plus the second |
| Text.StripCuts | lab_host/docker_interface.py:132 | stripping cuts off spaces at both ends and nothing else, and leaves none there |
| ComposePorts.ComposePayload.RemapEntries | lab_host/docker_interface.py:190-243 | the entry loop of a service extends the parking of all earlier entries by its own and fills in the ports, or the parking fails |
| ComposePorts.ComposePayload.RemapPorts | lab_host/docker_interface.py:172-245 | the rewritten document is the parking of all entries in visiting order; a failure leaves exactly the services before the failing one rewritten |
| ComposePorts.AsksExactly | lab_host/docker_interface.py:192-228 | an entry asks for a host port if and only if it is a text with the parts of a mapping and that host port, or an object with that number, or a text of digits worth it, as its published port |
| ComposePorts.RewriteKeepsEntry | lab_host/docker_interface.py:198-239 | a rewritten entry differs at most in its host port: address, container port, protocol and other keys stay, except for a short tcp entry with a slash in its address |
| ComposePorts.FillEntryByEntry | lab_host/docker_interface.py:190-243 | number and order of entries are kept, entries without a port are untouched, the others carry the port placed for them |
| ComposePorts.FillAllServiceByService | lab_host/docker_interface.py:182-243 | each service receives the consecutive stretch of ports that answers its own entries |
| ComposePorts.DocumentPortsAreDisjoint | lab_host/docker_interface.py:179-243 | the ports written into a document are pairwise distinct, unused before, and each the desired one or the least legal one nobody holds |
| ComposePorts.EmptyRemapMeansUnmoved | lab_host/docker_interface.py:204-233 | the returned table is empty exactly when no entry's host port changed |
| ComposePorts.SkippingTheSaveIsSound | lab_host/docker_interface.py:257-263 | the table is empty if and only if every entry of the file, of every service, already asks for the port placed for it, so leaving the file alone is always sound |
| ComposePorts.SavedEntryIsReadable | lab_host/docker_interface.py:258-262 | in a file that is written an entry is read as asking for its placed port if and only if it is not a short tcp entry with a slash in its address |
| ComposePorts.ComposeFile.RemapIfNeeded | lab_host/docker_interface.py:248-263 | the file on disk stays as it is when it cannot be read, when the remap fails and when no port moves, and otherwise becomes the parked document; either way it is exact which entries then ask for their placed ports |
| ComposePorts.VisitingOrderDoesNotMatter | lab_host/docker_interface.py:182-243 | the order of the services affects neither success nor the set of ports |
| Tables.LabUseAtMostHostUse | control_plane/controller_helpers.py:168-204 | a lab's sum never exceeds the sum of its host |
| Tables.LabUseWithoutRow | control_plane/controller_helpers.py:168-183 | deleting a row lowers its lab's sum by exactly what the row took |
| Tables.HostUseWithoutRow | control_plane/controller_helpers.py:186-204 | and the sum of the host of its lab by the same amount |
| Tables.HostUseWithRow | control_plane/controller_helpers.py:186-204 | a row adds its charge to the sum of the one host that its lab is on, and to no other |
| Tables.RefusalIsExact | control_plane/controller_helpers.py:229-295 | no refusal exactly when the host is unbounded or both caps of both resources hold after the request; a refusal names a cap that would be exceeded |
| Charges.RowIsCharged | control_plane/controller_helpers.py:168-204 | adding a row raises the use of its lab, and of the host of its lab, by its cores and MiB, by nothing for a limit that is missing, and raises no other use |
| Charges.AdmittedExactly | control_plane/controller_helpers.py:207-295 | a request is admitted if and only if the host has no totals, or use less the credited cores and MiB plus the requested ones is at most each limit of the lab and each total of the host |
| Charges.RefusalIsTheFirst | control_plane/controller_helpers.py:234-295 | each of the four refusals is given exactly when its own limit would be exceeded and none of those before it |
| Charges.StartsExactly | control_plane/controller.py:1212-1261 | exactly which deployments into a known lab get in flight, in cores and MiB, with the row of that name credited, and what they then charge and replace; the rest change nothing |
| Charges.NothingStarts | control_plane/controller.py:1205-1212 | a deployment into a lab that is not there, or under a name that two rows have, changes nothing |
| Charges.WritesExactly | control_plane/controller.py:1444-1493 | a commit writes if and only if its lab is still there, at most one environment carries the new Docker id, and the row it replaces is still there unless another is taken over |
| Charges.TakenCarries | control_plane/controller.py:1444-1457 | the row taken over is an environment that carries the new Docker id; one is taken over whenever there is one |
| Charges.LabIsHostedExactly | control_plane/controller.py:802-841 | a host takes a new lab if and only if it has no totals or its rows use, with the limits asked for, at most each total |
| Charges.DeletedHost | control_plane/controller.py:586-597 | deleting a host takes along exactly its labs and their rows |
| Charges.CommitEndsOne | control_plane/controller.py:1444-1493 | a commit ends its own deployment and no other, and touches no lab and no host |
| ControlPlane.Controller.CalculateLabAllocated | control_plane/controller_helpers.py:168-183 | the summing loops compute a lab's use |
| ControlPlane.Controller.CalculateHostAllocated | control_plane/controller_helpers.py:186-204 | the accumulators compute a host's use |
| ControlPlane.Controller.EnforceResourceCapacity | control_plane/controller_helpers.py:207-295 | the check-and-raise sequence raises for the first exceeded cap, lab before host and CPU before memory |
| DeployRuns.CommitMeetsProjection | control_plane/controller.py:1444-1493 | a commit leaves lab and host at no more than their use at that time, less what the replaced row still takes, plus the request |
| DeployRuns.CommitIsRecorded | control_plane/controller.py:1457-1493 | a commit that writes leaves exactly one row for the deployment, under the id of the row taken over or replaced, removes these two and keeps every other row |
| DeployRuns.CommitIsExact | control_plane/controller.py:1814-1852 | unless another row is taken over, the lab's use after the commit is exactly the projected one |
| DeployRuns.DeleteRowKeepsCaps | control_plane/controller.py:2038-2110 | deleting any row, the one being replaced included, keeps every cap and every projection |
| DeployRuns.DeleteLabKeepsCaps | control_plane/controller.py:1007-1010 | deleting a lab with its rows does, too |
| DeployRuns.DeleteHostKeepsCaps | control_plane/controller.py:586-597 | and deleting a host with all its labs |
| DeployRuns.CreateLabKeepsCaps | control_plane/controller.py:607-663 | and so does creating one |
| DeployRuns.AdmittedProjectionFits | control_plane/controller_helpers.py:229-285 | an admitted deployment, its replaced row credited, is projected to fit the lab's cap and, on a bounded host, the host's |
| DeployRuns.ReplacementByNoMoreIsAdmitted | control_plane/controller_helpers.py:229-285 | while the caps hold, replacing a row by one that asks for no more is never refused, as the existing row is credited |
| DeployRuns.BeginKeepsCaps | control_plane/controller.py:1250-1261 | putting an admitted deployment in flight keeps all caps and projections |
| DeployRuns.CommitKeepsLabCaps | control_plane/controller.py:1814-1852 | a commit keeps every lab's cap, and the projections of deployments in flight elsewhere |
| DeployRuns.CommitKeepsHostCaps | control_plane/controller.py:1444-1493 | a commit keeps every bounded host's cap |
| DeployRuns.StepKeepsCaps | control_plane/controller_helpers.py:207-295 | every step keeps the lab caps, and the host caps unless a registration leaves no room |
| DeployRuns.LabCapsHoldInEveryRun | control_plane/controller_helpers.py:234-259 | over every run each lab stays within its own limits, whatever is registered, resized or declared unbounded |
| DeployRuns.HostCapsHoldInEveryRun | control_plane/controller_helpers.py:268-295 | over every run in which no registration shrinks a host below its use, every bounded host stays within its totals |
| DeployRuns.HostCapsHoldExactlyWhenRoomIsLeft | control_plane/controller.py:512-524 | bounded hosts stay within their totals now and after the commit in flight, throughout a run, if and only if every registration in it leaves room for both |
| HostTotals.CommitHostUseIsExact | control_plane/controller.py:1444-1493 | a commit that writes changes the use of its host by exactly the request less what the rows it takes over or replaces still took there, and raises the use of no other host |
| HostTotals.StepWithin | control_plane/controller.py:512-524 | a step keeps what is allocated within all totals exactly when it is a registration that leaves room for it, a commit that still finds room, or any other step |
| HostTotals.TotalsAreKeptExactlyWhenThereIsRoom | control_plane/controller.py:512-524 | what is allocated stays within the totals of all bounded hosts throughout a run if and only if each of its registrations and writing commits has room |
| HostTotals.ShrinkingBelowUseExceeds | control_plane/controller.py:512-524 | there is a registration below what is allocated, and it exceeds a total at once |
| HostTotals.ShrinkingBelowAFlight | control_plane/controller.py:512-524 | one below what is in flight leaves no room for it and yet exceeds no total when the deployment is abandoned |
| DeployRuns.CapsHoldFromTheStart | control_plane/controller.py:512-524 | both hold from empty tables on |
| DeployRuns.OverlappingDeploysExceedTheCap | control_plane/controller.py:1250-1261 | two deployments that are both admitted before either commits can exceed a host's total |
| ControlPlane.Controller.BeginDeploy | control_plane/controller.py:1212-1261 | the handler up to its check is the check step on the MiB that the limit text is read as, and nothing happens on a text that cannot be read |
| ControlPlane.Controller.CommitDeploy | control_plane/controller.py:1444-1493 | the row updates, insertions and deletions after the lab host has answered are the commit step |
| ControlPlane.Controller.DeploySerially | control_plane/controller.py:1543-1852 | a serial deployment keeps all caps and leaves nothing in flight |
| ControlPlane.Controller.DeleteRowById | control_plane/reconciliation/service.py:150 | exactly the row with that id goes; with its handlers this is the row-deletion step |
| ControlPlane.Controller.DeleteLabRows | control_plane/controller.py:1007-1010 | exactly the lab and its rows go, and the use of its host falls by exactly what the lab used |
| HostTotals.DeletedLabFreesItsUse | control_plane/controller.py:1007-1010 | deleting a lab lowers the use of its own host by the use of the lab and leaves that of every other host |
| ControlPlane.Controller.RegisterHost | control_plane/controller.py:488-524 | registration puts the host in place of an earlier one and changes nothing else; it keeps every lab cap, and the totals exactly when the new ones leave room for what is allocated |
| ControlPlane.Controller.FirstBy | control_plane/controller.py:344-354 | the head of the sorted candidates precedes every candidate |
| ControlPlane.Controller.SelectTargetLab | control_plane/controller.py:287-355 | an eligible lab that is minimal among all eligible ones, by id or by score and id; "no labs" and "none eligible" exactly when so |
| ControlPlane.Controller.SelectTargetHost | control_plane/controller.py:358-416 | an eligible host that is minimal among all eligible ones, and none exactly when there is none |
| Scheduler.ChosenLabIsLeast | control_plane/controller.py:344-354 | first fit takes the lowest id among the eligible labs, least allocated the lowest score and then the lowest id |
| Scheduler.ChosenHostIsLeast | control_plane/controller.py:405-415 | the same for hosts |
| Scheduler.BestLabIsUnique | control_plane/controller.py:344-354 | the choice is determined, as no two candidates tie |
| Scheduler.BestHostIsUnique | control_plane/controller.py:405-415 | the choice of a host is determined as well |
| Scheduler.LabScoreIsTheScarcerLoad | control_plane/controller.py:236-247 | a lab's score is zero on an unbounded host and otherwise the least share of its two capacities, its own limits or else the host's totals, that covers its use of both; a capacity of zero counts as full |
| Scheduler.HostScoreIsTheScarcerLoad | control_plane/controller.py:254-259 | a host's score is zero without totals and otherwise the least share of both totals that covers its use of both; a total of zero counts as full |
| Scheduler.LabIsEligibleExactly | control_plane/controller.py:305-328 | a lab is considered if and only if it has not failed and its host is online and either has no totals or has room for the cores and MiB asked for, as has the lab |
| Scheduler.HostIsEligibleExactly | control_plane/controller.py:376-395 | a host is considered if and only if it is online, has a key, and has no totals or has room for the limits asked for |
| Scheduler.LabScoreInUnit | control_plane/controller.py:230-247 | every lab that is scored has a score between 0 and 1 |
| Scheduler.HostScoreInUnit | control_plane/controller.py:250-259 | every host that is scored has a score between 0 and 1 |
| ControlPlane.Controller.CreateLabOn | control_plane/controller.py:796-849 | the comparison that creating a lab directly makes by itself goes ahead exactly on the hosts the scheduler considers eligible, and records the limits unless the host is unbounded |
| Scheduler.SecondCheckPasses | control_plane/controller.py:1230-1261 | the capacity check inside a scheduled deployment never refuses the chosen lab, also when a row of that name is replaced |
| Scheduler.ScheduledDeployBegins | control_plane/controller.py:1876-1956 | a scheduled deployment passes its check whenever the host has a key and is idle and the name is not ambiguous |
| MemoryLimits.MatchIsSound | control_plane/controller_helpers.py:83-87 | what the matcher finds is spelled by the text |
| MemoryLimits.MatchIsComplete | lab_host/docker_interface.py:322-328 | whatever the text spells is found, so its parts are unique |
| MemoryLimits.UnitsArePowersOf1024 | control_plane/controller_helpers.py:20-39 | the table of multipliers has exactly the bytes, k, m, g and t units with their endings, in any case, as the powers of 1024 |
| MemoryLimits.ReadingsAgree | control_plane/controller_helpers.py:98-105 | for one number and unit the MiB and the bytes differ by less than one MiB, and the control plane refuses exactly what is below one |
| MemoryLimits.ChargedIsEnforceable | lab_host/docker_interface.py:321-340 | every text that is charged as mb MiB is accepted by the lab host as mb MiB or less than one more |
| MemoryLimits.EnforceableIsCharged | control_plane/controller_helpers.py:79-105 | of the texts the lab host accepts the control plane refuses exactly those below one MiB |
| MemoryLimits.PlainLimits | lab_host/docker_interface.py:321-340 | a whole number with a known unit means number times unit, with any spaces around the parts |
| Decimals.DecimalLimits | lab_host/docker_interface.py:329-340 | digits, a point and more digits with a known unit mean the number they spell times the unit in bytes, rounded down, with any spaces around the parts; zero bytes are refused |
| Decimals.WholeLimits | lab_host/docker_interface.py:329-340 | the same without a point, leading zeros or not |
| Decimals.MiBAreBytes | control_plane/controller_helpers.py:98-105 | whatever the text, the MiB charged are the bytes enforced divided by 1048576 and rounded down; less than one is refused |
| Decimals.KnownUnits | control_plane/controller_helpers.py:20-39 | which units there are, in lower case and letter by letter in any case, and what each is worth |
| Decimals.UnreadTexts | control_plane/controller_helpers.py:83-87 | a text is not matched if and only if nothing can be read from it as a number and a unit |
| Decimals.RefusedTexts | control_plane/controller_helpers.py:83-96 | both services refuse exactly such a text as malformed; of the others the control plane refuses zero as such first and then, as the lab host does, exactly those whose unit is not known |
| LimitExamples.OneAndAHalfGigabytes | control_plane/controller_helpers.py:90-105 | "1.5g" is charged as 1536 MiB and enforced as 1610612736 bytes |
| ProjectLimits.SharesConserve | lab_host/docker_interface.py:367-386 | the shares add up to the total |
| ProjectLimits.SharesAreFair | lab_host/docker_interface.py:363-386 | each share is at least 1, shares do not increase with the index and differ by at most 1 |
| ProjectLimits.SharesAreTheOnlyFairDivision | lab_host/docker_interface.py:367-386 | no other division has these properties |
| ProjectLimits.UpdateContainers | lab_host/docker_interface.py:388-397 | every container gets its own share of each limit that is set and keeps the other |
| ProjectLimits.ApplyProjectLimits | lab_host/docker_interface.py:343-397 | exactly which limits are refused and for which reason, the CPU limit first; a refusal changes no container, and otherwise each container gets its share of 100000 times the CPU limit, rounded down, and of the bytes that the memory limit is read as, or keeps what it had |
| ProjectLimits.CpuLimitIsAppliedWhenEnough | lab_host/docker_interface.py:361-366 | a CPU limit is applied exactly when it comes to at least one quota unit for each container |
| ProjectLimits.CpuSharesMatchLimit | lab_host/docker_interface.py:361-372 | the CPU quotas add up to at most 100000 times the limit and fall short by less than one unit |
| ProjectLimits.MemorySharesMatchCharge | lab_host/docker_interface.py:375-386 | for a project charged with mb MiB the limits are applied unless there are more containers than bytes, and add up to mb MiB or less than one more |
| ProjectLimits.ChargedLimitsAreApplied | lab_host/docker_interface.py:375-380 | up to 2^20 containers the limits of a charged project are always applied |
| LabHostLimits.SiteStepIsSound | control_plane/controller.py:1603-1852 | over every step of both services, at whatever pace lab hosts work, a deployment in flight waits for a call that asks for the very limits it is charged for, row ids and held limits stay unique, and lab caps hold |
| LabHostLimits.AfterWorkHolds | lab_host/docker_interface.py:528-561 | working on a call adds exactly the limits the call asks for, when they are written down and when they are applied |
| LabHostLimits.BringUpHolds | lab_host/docker_interface.py:577-594 | bringing a project up applies what was written down for it and nothing else |
| LabHostLimits.AppliedHolds | lab_host/docker_interface.py:343-397 | applied limits add up to what was asked whatever the number of containers; when either is too small neither is applied |
| LabHostLimits.FlightsReplaceDifferentRows | control_plane/controller.py:1814-1852 | deployments on two hosts never replace the same row |
| LabHostWork.WritingDown | lab_host/docker_interface.py:287-299 | writing down puts exactly the limits that a call asks for, 100000 units of quota for each core and the bytes that its text is read as, in place of those of its project |
| LabHostWork.Raising | lab_host/docker_interface.py:544-565 | raising a project enforces exactly these, if there are containers and each limit has a unit for each of them, and leaves every other limit as it was |
| LabHostWork.BringingUp | lab_host/docker_interface.py:577-592 | bringing a project up enforces exactly what is written down for it, under the same condition |
| LabHostWork.LosingSource | lab_host/docker_interface.py:480-482 | throwing the old source away drops exactly what was written down for the project |
| LabHostWork.Losing | lab_host/docker_interface.py:597-613 | a limit whose containers go is at most what is left of it, and no other limit changes |
| LabHostWork.Removing | lab_host/docker_interface.py:665-676 | a removal drops exactly the limits of its project |
| LabHostWork.EndingAndOutOfTurn | lab_host/docker_interface.py:528-565 | a call can end at any time, and nothing is done for one that has ended, or out of turn |
| LabHostWork.Calling | control_plane/controller.py:1585-1623 | a check that lets a project deployment into flight sends its lab host one call, with the text only if memory is charged; an unreadable text, or a check that fails, sends none |
| LabHostWork.TableSteps | control_plane/controller.py:1814-1852 | every other step changes the tables alone, and a deployment that ends is waited for no longer |
| Coverage.WorkKeepsCover | lab_host/docker_interface.py:528-561 | what a lab host takes in is accounted for if and only if a deployment waits for the call and its lab is there, or rows carry it already, as they must when it is taken in late |
| Coverage.RowsAfterCommit | control_plane/controller.py:1814-1852 | after a commit that writes, rows carry exactly the limits that its charge pays for and those that rows carry which it does not replace |
| Coverage.CommitKeepsCover | control_plane/controller.py:1814-1852 | a commit keeps all limits accounted for if and only if, for what is held for its project, it writes and pays or a row it keeps does, or it writes nothing and rows do |
| Coverage.AbandonKeepsCover | control_plane/controller_helpers.py:349-353 | giving a deployment up does, if and only if rows carry what is held for its project |
| Coverage.DeleteRowKeepsCover | control_plane/reconciliation/service.py:298 | deleting a row does, if and only if another row or a deployment taken in carries each held limit that the row carries |
| Coverage.DeleteLabKeepsCover | control_plane/controller.py:1007-1010 | deleting a lab does, if and only if rows or deployments of other labs carry what its host holds |
| Coverage.DeleteHostKeepsCover | control_plane/controller.py:586-597 | deleting a host does, if and only if it holds no limit |
| Coverage.StepKeepsCoverExactlyWhenOrderly | control_plane/controller.py:1603-1852 | each step of either service keeps the limits accounted for exactly when it is orderly |
| Coverage.CoveredExactlyWhenOrderly | control_plane/controller.py:1603-1852 | the tables account for every memory and CPU limit on every lab host throughout a run if and only if every step of it is orderly |
| Coverage.CarriedSum | control_plane/controller.py:1832-1833 | limits that rows carry, memory or CPU, amount to no more than what these rows are charged, but for one MiB for each memory limit |
| Coverage.CoveredLimitsFitTheHost | control_plane/controller_helpers.py:268-295 | accounted limits, enforced or written down, fit the total of a bounded host in this sense, also while a deployment is in flight |
| Coverage.LimitsStayWithinHosts | control_plane/controller_helpers.py:268-295 | so they do after every orderly run from nothing in which registrations leave room |
| CleanRuns.CleanStepIsTidy | lab_host/docker_interface.py:528-561 | clean steps keep it so that lab hosts work only on calls that are awaited, hold nothing for removed projects, and hold for a project being deployed no more than was asked |
| CleanRuns.CleanStepIsOrderly | control_plane/controller.py:1613-1852 | a clean step is orderly |
| CleanRuns.CleanRunsStayWithinHosts | control_plane/controller.py:1613-1852 | over every clean run the tables account for every limit throughout and the limits on a bounded host stay within its totals |
| DisorderlyRuns.AbandonedLimitsExceedTheHost | control_plane/controller.py:1728-1735 | for every limit of a host's whole size, one deployment given up after the lab host has taken it in and one committed leave the host enforcing twice that limit |
| DisorderlyRuns.TimedOutLimitsExceedTheHost | control_plane/controller_helpers.py:349-353 | so do one whose call has timed out before the lab host takes it in, and one committed |
| DisorderlyRuns.RedeployedLimitsExceedTheHost | control_plane/reconciliation/service.py:281-298 | so do one of a project whose removal has worked and whose reused row is deleted afterwards, and one of another project |
| DisorderlyRuns.TwoHundredOnAHundred | control_plane/controller.py:1728-1735 | with "100m" on a host of 100 MiB each of the three ends with exactly 200 MiB enforced |
| DisorderlyRuns.ExceedingIsDisorderly | control_plane/controller.py:1603-1852 | a run that ends with too much has a step that is not orderly and a limit that the tables do not account for |
| Reconciler.AllSingleUseSuccess | control_plane/reconciliation/service.py:301-314 | the scan is true exactly for a nonempty list all of whose containers finished with exit code 0 |
| Reconciler.Loop.RemoveRuntimeContainer | control_plane/controller_helpers.py:382-416 | stop, plain removal, and a forced one exactly when the plain one failed otherwise than with 404; the container stays exactly when the forced one fails as well |
| Reconciler.Loop.ReconcileContainer | control_plane/reconciliation/service.py:104-253 | the branches for one container row: the row goes exactly when its container is done, an unread one counting as gone, and the container is commanded as its desired state and status call for |
| Reconciler.Loop.ReconcileProject | control_plane/reconciliation/service.py:317-409 | the row goes exactly when its project is done, whatever the removal is answered; the project ends as the action its listing calls for leaves it, unless the command is refused |
| Reconciler.Loop.ReconcileForHost | control_plane/reconciliation/service.py:412-446 | the nested loops visit lab after lab, containers before projects, from lists read before the visits; without a usable key nothing happens |
| Reconciler.Loop.ReconcileHeartbeat | control_plane/reconciliation/service.py:449-495 | a heartbeat while a pass runs is skipped; otherwise the sender is reconciled with the last report of each id, or every host if the sender is not known, and the lock is free again afterwards |
| Reconciler.Loop.ReconcilePeriodically | control_plane/reconciliation/service.py:484-493 | the loop over all hosts reconciles one after the other with nothing reported |
| Reconciler.Loop.RemoveProjectRowAndRuntime | control_plane/reconciliation/service.py:268-298 | a removal of the project and then one route deletion for each exposed service, in order, if the host has a domain; then the row goes |
| Commands.PassFollowsItsCommands | control_plane/reconciliation/service.py:412-446 | after a pass the lab host is what the commands that the pass has added to its log make of it, one after the other, each by what a start, stop, pause, removal, up or down does; refused ones and route deletions do nothing |
| Commands.ReportedIsTheLast | control_plane/reconciliation/service.py:449-482 | of the items of a heartbeat the last for each id that is not empty is what is reported |
| Commands.InformationIs | control_plane/reconciliation/service.py:104-122 | a reported container is what the report says; another is read, and counts as missing when the read is answered with an error or there is none |
| Commands.ContainerVisitSends | control_plane/reconciliation/service.py:153-253 | exactly which commands the visit to a container row sends, in order, by lifetime, time to live, desired state and runtime status |
| Commands.ListingIs | control_plane/reconciliation/service.py:325-332 | a project is listed with its containers, with 404 if the lab host does not know it, or with the error that it is answered with |
| Commands.ProjectVisitSends | control_plane/reconciliation/service.py:317-409 | exactly which commands the visit to a project row sends, in order, with one route deletion for each exposed service after a removal on a host with a domain |
| Commands.PassSendsEachRowItsOwn | control_plane/reconciliation/service.py:426-436 | over a whole pass a container is sent exactly what the visit to its row alone sends it, judged by what was known before the pass |
| Commands.PassSendsNothingToOthers | control_plane/reconciliation/service.py:426-436 | a container that no row of the host names is sent nothing |
| Commands.PassSendsEachNameItsRows | control_plane/reconciliation/service.py:438-446 | over a whole pass a project is sent exactly what the visits to the rows of its name send, lab by lab, each judged by what those before it have left |
| Reconciler.VisitLabEffect | control_plane/reconciliation/service.py:426-446 | visiting one lab deletes its finished rows, keeps all others and leaves what the lab host runs for other labs alone |
| Reconciler.SuccessSurvivesALab | control_plane/reconciliation/service.py:355-409 | a project name counts as finished after a lab exactly if it did before and the pass has acted on no project of that name in the lab |
| Reconciler.PassDeletesExactlyTheDone | control_plane/reconciliation/service.py:104-446 | whatever is answered, a pass deletes exactly the expired ephemeral rows, the single-use containers that finished with 0 or cannot be read, and the single-use projects that finished with 0 and are not shadowed by an earlier project of their name; it changes no row |
| Reconciler.LiveContainerLosesItsRowExactlyWhenUnread | control_plane/reconciliation/service.py:193-202 | a single-use container that is there and has not finished with 0 loses its row if and only if it is not reported and its read is answered with an error |
| Reconciler.UnreadContainerLosesItsRow | control_plane/reconciliation/service.py:104-122 | a running one does on a host that answers 500 |
| Reconciler.TurnsDeleteExactlyTheDone | control_plane/reconciliation/service.py:484-493 | a periodic pass over all hosts deletes exactly what the turns of the single hosts delete, each by what is answered on that host |
| Reconciler.SessionAndPersistentSurvive | control_plane/reconciliation/service.py:170-171 | session and persistent rows survive every pass |
| Reconciler.ShadowKeepsDoneProject | control_plane/reconciliation/service.py:372-394 | every finished single-use project with such an earlier namesake is kept |
| Reconciler.SharedProjectNameIsKept | control_plane/reconciliation/service.py:355-370 | there is such a state that the schema allows |
| Settling.PassSparesContainer | control_plane/reconciliation/service.py:426-436 | a pass does nothing to a container that no row of the host names |
| Settling.PassSparesProject | control_plane/reconciliation/service.py:438-446 | nor to a project that none names |
| Settling.PassActsOnContainers | control_plane/reconciliation/service.py:426-436 | a pass does to each row's container what the row alone calls for, whatever it does for other rows |
| Settling.NameRun | control_plane/reconciliation/service.py:438-446 | a pass does to a project what the rows of its name do one after the other, in the order of their labs, whatever else it visits |
| Settling.PassReachesDesiredStates | control_plane/reconciliation/service.py:153-409 | with fresh information and no refusals a pass brings every existing container and project to the state its row asks for, a shared name to that of its last row, leaves alone what is there already and what cannot be started, and removes what is done |
| Settling.NameSettles | control_plane/reconciliation/service.py:372-409 | the surviving rows of a name are left alone by a second pass if and only if they agree and, if they want it up, it was listed at first and none of its rows was deleted |
| Settling.SecondPassLeavesExactlyTheSettled | control_plane/reconciliation/service.py:218-409 | a second pass leaves a surviving container row alone exactly when it is not restless (wanted up without a runtime that a start brings back, or a single-use container that stopping turns into a finished one), and the project rows of a name exactly when the name has settled |
| Settling.ReconciliationSettles | control_plane/reconciliation/service.py:218-409 | a second pass changes no table, touches nothing and issues no command if and only if no surviving container row is restless and every name has settled |
| Settling.OpposedRowsNeverSettle | control_plane/reconciliation/service.py:372-409 | two persistent rows of one name, one wanting it up and one down, are commanded in every second pass |
| Settling.SharedNameNeverSettles | control_plane/reconciliation/service.py:355-409 | there is such a state that the schema allows |
| LabCreation.Registry.CreateLabOnHost | control_plane/controller.py:607-769 | on success the lab points to two new network rows of its own, made on the host; on a failure no row of it remains, every extracted network id was sent a DELETE, and it is exact what stays on the host |
| LabCreation.Registry.MakeNetworks | control_plane/controller.py:671-741 | the part inside the try block succeeds exactly when both networks are made and named |
| LabCreation.Registry.Compensate | control_plane/controller.py:742-755 | the handler sends a DELETE for each known network and deletes the lab with its network rows |
| LabCreation.Registry.DeleteLab | control_plane/controller.py:979-1010 | deleting a lab sends a DELETE for exactly its networks and keeps every other lab paired with its own |
| LabCreation.AddedLabIsPaired | control_plane/controller.py:739-741 | a finished creation keeps every lab paired with two recorded networks and every network row with a lab |
| LabCreation.DeletedLabLeavesPaired | control_plane/controller.py:1009-1010 | so does a deletion |
| Ingress.LoadAfterDump | lab_host/docker_interface.py:962-1006 | loading what was written returns the routes if and only if all their schemes are http or https |
| Ingress.LoadsExactly | lab_host/docker_interface.py:962-998 | exactly which hostnames are loaded from a state file, and their upstream, scheme and metadata, an unknown scheme becoming http and metadata that is no object none |
| Ingress.LoadIsNormal | lab_host/docker_interface.py:986-996 | loaded routes always are, whatever the file holds |
| Ingress.EntryRoundTrip | lab_host/docker_interface.py:978-996 | an entry that was written is usable and read back, an unknown scheme becoming http |
| Ingress.Slug | lab_host/docker_interface.py:1009-1010 | a slug is not empty, has only lower-case letters, digits and dashes, and neither starts nor ends with a dash |
| Ingress.SlugOfHostname | lab_host/docker_interface.py:1009-1010 | it is the hostname in lower case with everything else replaced by dashes, less the dashes at its ends, or "route" if nothing else is left |
| Ingress.RouteIdsAgree | lab_host/docker_interface.py:1009-1012 | two route ids are equal exactly when slugs and digests both are |
| Ingress.RoutersNameTheirServices | lab_host/docker_interface.py:1015-1054 | every router of a rendering names a rendered service, and a hostname that is served is served by its own route's host and port, with the route's scheme or http if that is empty, distinct ids or not |
| Ingress.ServesAllExactlyWhenIdsDiffer | lab_host/docker_interface.py:1015-1054 | every stored hostname is served exactly when no two share a route id |
| Ingress.RouteStore.LoadRoutes | lab_host/docker_interface.py:952-998 | loading puts an empty state file in place of a missing one, otherwise leaves the file alone, and reads the same again |
| Ingress.RouteStore.WriteConfig | lab_host/docker_interface.py:1015-1062 | the two loops write a rendering of the routes |
| Ingress.RouteStore.EnsureProxy | lab_host/docker_interface.py:1084-1117 | ensuring the proxy keeps the routes and renders them |
| Ingress.RouteStore.UpsertRoute | lab_host/docker_interface.py:1165-1188 | the store is updated at one hostname and the configuration is a rendering of it |
| Ingress.RouteStore.RemoveRoute | lab_host/docker_interface.py:1191-1207 | the hostname is removed, reported as removed exactly if it was there, and the configuration is a rendering of the rest |
| Ingress.RouteStore.Serve | lab_host/docker_interface.py:1084-1207 | over every run of requests, from any state file, the store is the plain map the requests describe and the configuration is a rendering of it |
| Ingress.LastRequestDecides | lab_host/docker_interface.py:1165-1207 | over every run a hostname has the route of the last request about it, or none if that was a removal, and without one what it had |

## Left out

- Two deployments in flight on one host: the caps do not hold then, as the concrete instance shows.
- ControlPlane.Controller.FirstBy: is the head of the sorted candidate list only; the rest of the order is never used.
- Ingress.RouteStore.WriteConfig: does not fix the order of the hostnames, which the source sorts; every result holds for any order.
- DockerHost.LabHost.UsedHostPorts: visits containers and bindings in any order.
- Registration checks (health, clashing hostname and address, the secret store) and DNS, which precede the table write.
- The tables of labs and rows are sequences in id order, ids are never reused, and lab names and statuses after deployment are not recorded.
- A deployment's private network and its ingress routes; a failure there is a step that abandons it.
- How a lab host's work on a call is interrupted: writing limits down, applying them to all containers of a project, and reading them back to apply them are one step each, and all containers of a project are one.
- The limits of environments on a lab host, and limits that a compose file sets by itself.
- A host row stands for one machine: registering it with another address, or deleting and registering it again, does not change the machine.
- Commands sent to a lab host by hand through the control plane (control_plane/controller.py:537-582), which can change any container outside every step of a run.
- Reconciler.Loop.ReconcileForHost: runs a whole pass at one time; a transport error, which ends a pass early with the rows visited so far, is not modelled.
- Reconciler.Loop.ReconcileHeartbeat: leaves out that the sender is marked online; how a sender is found in the payload is an input.
- DockerHost.LabHost.CreateContainer: ends with the container's start; connecting it to further networks is not modelled.
- ProjectLimits.CpuSharesMatchLimit: takes the product of limit and period as exact, where the source multiplies floating-point numbers.
- Setting desired states by hand, and every other endpoint that changes no charge.
- Port bindings of compose containers, other than through the used ports that the daemon reports.
- A compose document whose services share one list through an alias, and the text of YAML and JSON files.
- Unicode digits, letters and spaces: characters are ASCII. The rounding of floating-point numbers: amounts are exact.
- The choice of the proxy's own ports, the static configuration and the proxy container.
- SHA-1: the digest of a hostname is any string of eight characters.
- HTTP routing and clients, Vault, message queues, database sessions, the command line interface, playbooks and source fetching.
