# Asynchronous Message Service: a verified model

This project models the Asynchronous Message Service (AMS, CCSDS 735.1-B-1) and its remote gateway (RAMS) as ION
implements them, and proves what its parts promise each other. The code is the authority: where it and the standard or
its own comments differ, the model does what the code does.

- **Petitions** (`Petitions`, `RamsGateway`, `PetitionLaws`, `Demand`, `Onward`): a gateway's petitions, each with the local
  modules that want its messages (DMS), the gateways that asked for them (DGS) and the gateways asked for them (SGS).
  `Petitions` says what each operation does, as functions on values; the methods of class `Gateway` update the lists in
  place and are proved to compute those functions; `PetitionLaws` proves what every run keeps, and `Demand` who is told
  what when somebody starts or stops wanting messages, on trees and on meshes.
- **Relaying** (`Trees`, `Enclosures`, `Relaying`, `RelayLaws`): announcements and publications on any finite tree of
  gateways, in any order of arrival, as the octets that are sent.
- **Both together** (`Routing`, `Delivery`, `Conduits`, `Domains`, `Draining`, `Lingering`, `Retractions`): a network of
  gateways with ordered links, from startup through subscriptions to whatever subjects. Once no RPDU about a
  representable key is under way, publications reach every subscriber under such a key exactly once, whether it
  subscribed for all continua or for one, and private messages follow the tree path; on runs on which modules keep to
  application subjects these RPDUs die out. Other keys may be about all the time.
- **Playback** (`Playback`): the petition log replayed after a restart.
- **Envelope** (`Envelope`): the RAMS envelope octet by octet, sign extension included.
- **Units and rules** (`Units`, `MsgRules`): the unit hierarchy, relinked in place, and the partially ordered rule lists
  whose searches rely on it.
- **Event queue** (`EventQueue`): one list for all priorities and a table of last elements.
- **Fan-out index** (`FanIndex`): modules and subjects listing each other.
- **Registrar** (`Registrar`): the census after a restart and the assignment of module numbers.
- **Codecs** (`Checksum`, `MamsMessage`, `ContactSummary`, `ContactParsing`, `Buffers`, `Bytes`): checksums, MAMS
  messages, contact summaries and declarations.

`Lists` and `Options` hold small shared definitions. A send is an entry in the gateway's ghost log, or a packet in a
multiset of copies under way; it fails if the neighbour has not declared itself. `dafny verify dfyconfig.toml` checks
everything.

## What the proofs found

- `EnvelopeHeader` reads the low octets of the continuum and unit numbers through plain `char`: from 128 on they come
  back negative. A second subscriber then does not join the first one's petition
  (`PetitionLaws.SecondSubscriberJoinsIff`). A subscription limited to a continuum whose low octet is 128 or more is sent
  to whoever asked for an unrelated subject (`Domains.LimitedPetitionGoesAstray`), and matches no more at the next gateway
  (`Domains.LimitedPetitionMatchesIff`). A private message or announcement for such a continuum is dropped at its origin
  or goes to another continuum (`Conduits.TargetedMessageArrivesIff`, `Conduits.TargetedMessageFollowsHeader`). The laws
  that need it ask for a representable key of the one petition they speak of; runs may contain any keys.
- On a tree, `CancelPetition` is only reached with an empty DGS, so its branch that tells a sole destination is never
  taken, contrary to the comment at ams/rams/librams.c:1675-1679: two neighbours whose modules have both subscribed stay
  in each other's DGS and SGS for good (`Lingering.ListedForGood`, `Lingering.TwoGatewaysLinger`).
- A module may subscribe to pseudo-subjects too (ams/library/libams.c:1338-1347). When its gateway cancels a petition on
  its own continuum's pseudo-subject, whatever role or unit that names, the neighbours take this for the gateway's own
  retraction, undeclare it and forget all that it asked for (`Retractions.UnsubscriptionUndeclares`,
  `Routing.CancellationUndeclaresIff`). This and nothing else breaks the links between gateways
  (`Routing.RunStaysOkIff`) and ends mutual listings (`Lingering.MutualEndsIff`). And a subscription
  to any continuum's pseudo-subject gives every other gateway a conduit to that continuum, even if it is its own or
  outside the tree (`Conduits.PseudoSubscriptionMisleads`).
- Replaying the log ignores a reassertion that the live gateway listed a second time, and does not undo a declaration
  (`Playback.ReplayAgreesIff`); it also lists neighbours elsewhere if a local subscription under a key that is not
  representable came first (`Playback.ReplayListsUnderKeyIff`).
- A registration in role 0, or of another venture in a role unknown here, is accepted under a number that stays free, and
  the next one gets the same number (`Registrar.SameNumberTwiceIff`, `Registrar.RoleZeroRegistersTwice`).
- The registrar never resets the count of missed heartbeats when a number changes hands: the new owner is presumed dead
  at once or, if it sends no heartbeat, never (`Registrar.NewcomerBuriedAtOnceIff`,
  `Registrar.SilentOwnerIsNeverBuried`, `Registrar.NoSecondBurial`).
- The census is read through signed `char`: modules numbered 128 and up are never expected and cannot reconnect while
  others are (`Registrar.OnlyExpectedModulesReconnect`).
- An event that finds nothing of equal or higher precedence waiting goes to the head of the queue, ahead of a reply that a
  query waits for and has not taken yet (`EventQueue.AwaitedReplyIsNextIff`).
- A rule list falls out of order if a unit is created too late for rules that name it already, and exactly then
  (`MsgRules.CreationKeepsOrderIff`, `MsgRules.RuleForMissingUnit`).

## Model

| member | source | states |
|---|---|---|
| `PetitionLaws.NothingLeftToAssert` | ams/rams/ramscommon.c:793-867 | On every run from startup whose sends succeed, whatever keys occur in it, every declared neighbour has been sent each all-continua petition, on no neighbour's pseudo-subject or under a representable key, that a local module wants or, on a tree, another gateway; except the sole member of its DGS when no local module wants it |
| `PetitionLaws.SgsIsLastRpdu` | ams/rams/librams.c:1568-1707 | On every such run every SGS lists nobody twice; of a petition whose own key is representable, a neighbour is in the SGS iff the last RPDU sent to it about that key was an assertion, and a neighbour that holds it is never sent it again |
| `PetitionLaws.ApplyKeepsInv` | ams/rams/librams.c:1450-1566 | Every subscription, unsubscription, assertion, cancellation and retraction, under any key that a subscription can name or an envelope can give, keeps the whole invariant: keys, SGS against log, known nodes, nothing left to assert |
| `PetitionLaws.RunKeepsInv` | ams/rams/librams.c:1450-1566 | The invariant holds after every run of admissible events |
| `PetitionLaws.StartupInv` | ams/rams/librams.c:819-862 | A gateway that has just declared itself to its neighbours satisfies the invariant |
| `PetitionLaws.KeysStayUnique` | ams/rams/ramscommon.c:361-404 | However subscriptions and RPDUs follow each other, and whether or not sends succeed, no two petitions share a key that the envelope can represent |
| `PetitionLaws.SecondSubscriberJoinsIff` | ams/rams/librams.c:2560-2631 | The restriction is exact: a second subscriber joins the first one's petition iff the key is representable; otherwise two petitions with one key come to exist |
| `PetitionLaws.TwinPetitionIsPassedOver` | ams/rams/librams.c:1848-1939 | The condition is exact: for every other key that a subscription can name, on a neighbour's pseudo-subject and not representable, there is a run after which a petition remains to be asserted to that neighbour |
| `PetitionLaws.LastUnsubscriptionOnTree` | ams/rams/librams.c:1622-1707 | On a tree the last local unsubscription is passed on iff no other gateway wants the petition; a neighbour that alone still wants it is not told, although the code has a branch meant for that |
| `Demand.OnlyWhatIsWantedIsAsserted` | ams/rams/librams.c:1575-1592 | Whatever a gateway does, it asserts only petitions that a local module wants or, on a tree, a gateway that asked for them; cancellations, retractions and unsubscriptions make it assert nothing |
| `Demand.MeshAsksForLocalModulesOnly` | ams/rams/ramscommon.c:775-791 | On every run from startup on a mesh, each event only makes the gateway assert petitions that a local module wants after it, whatever neighbours ask for |
| `Demand.LastUnsubscriptionTells` | ams/rams/librams.c:1622-1707 | The last local unsubscription, on a mesh and on a tree: if no gateway has asked for the petition, everybody who was sent it gets one cancellation, in order; on a mesh, if one gateway has and was sent it, that one gets exactly one; otherwise nobody gets any, and the SGS loses exactly those told |
| `Demand.OtherSubscriberRemains` | ams/rams/librams.c:2633-2686 | As long as another module wants the petition, an unsubscription tells nobody |
| `Demand.CancellationTells` | ams/rams/librams.c:1941-2042 | A cancellation that is no retraction takes the neighbour out of the DGS once; the petition is given up in the same way if no local module wants it and, on a tree, no other gateway does, and otherwise nobody is told |
| `Demand.FirstSubscriptionAsks` | ams/rams/librams.c:2560-2631 | A first subscription for all continua sends one assertion to each declared neighbour, and to nobody else, and lists them in the SGS |
| `Demand.FurtherSubscriptionAsks` | ams/rams/librams.c:2560-2631 | A further module joins the petition, and each declared neighbour not asked yet is asked once; one that has subscribed before changes nothing |
| `Demand.FirstAssertionAsks` | ams/rams/librams.c:1733-1939 | An assertion from a declared neighbour, on no pseudo-subject: a new petition lists it, and on a tree each other declared neighbour is asked once, on a mesh nobody |
| `Demand.AssertionAsks` | ams/rams/librams.c:1733-1939 | The same when the petition is known: the neighbour is listed once more, and those not asked yet are asked if a local module wants the petition or the network is a tree |
| `Demand.NoneOfItsBusiness` | ams/rams/librams.c:1450-1566 | Subscriptions to the own continuum and by the gateway itself, assertions from gateways not declared, and RPDUs of other kinds change nothing; cancellations from gateways not listed are only logged |
| `Demand.RetractionTells` | ams/rams/librams.c:2044-2168 | A retraction step by step: the neighbour leaves the DGS it cancels, then, petition by petition, DGS and SGS, is answered with one cancellation iff it was in either, and each petition that nobody wants any more is given up; at the end it is not declared |
| `Demand.LimitedSubscriptionAsks` | ams/rams/librams.c:2560-2631 | A further module subscribes to a petition limited to another continuum: exactly the conduit there, the first gateway that asked for its pseudo-subject, is asked, if it has not been; if it is not declared any more the operation fails and changes nothing but the DMS |
| `Demand.PlayedBackAssertionIsConfirmed` | ams/rams/librams.c:1763-1788 | A neighbour's assertion that is known from the log is confirmed: it is not listed twice, and nobody is asked |
| `Lingering.ListedForGood` | ams/rams/librams.c:1622-1707 | On every steady run over a tree: once modules of two neighbouring gateways have subscribed to the same all-continua key and nothing is under way, each gateway stays in the other's DGS and SGS in every later state, whoever unsubscribes |
| `Lingering.MutualEndsIff` | ams/rams/librams.c:1622-1707 | Of all subscriptions, unsubscriptions, arrivals and retractions anywhere in the network, under whatever subjects, exactly those end the state in which two neighbours list each other, with nothing under way, at which one of the two takes a cancellation from the other for its retraction |
| `Lingering.TwoGatewaysLinger` | ams/rams/librams.c:1622-1707 | An explicit run of two gateways from startup ends with each listing the other in DGS and SGS and no module of either wanting anything |
| `PetitionLaws.SettledIffNothingToAssert` | ams/rams/ramscommon.c:793-867 | "Every declared neighbour has been asked" is the same as an empty assertion set |
| `PetitionLaws.EstablishKeeps` | ams/rams/librams.c:1848-1939 | Sending all petitions to a gateway that has become a conduit leaves none of them to be sent |
| `PetitionLaws.CancellationKeepsInv` | ams/rams/librams.c:1941-2168 | Cancellations, retractions of neighbours included, keep the invariant |
| `RamsGateway.Gateway.constructor` | ams/rams/librams.c:819-862 | The state after the declarations to all expected neighbours |
| `RamsGateway.Gateway.AssertPetition` | ams/rams/librams.c:1568-1620 | Computes AssertPetition of the petition functions: sends a petition that is wanted to its assertion set, then adds that to the SGS; a failed send leaves the SGS |
| `RamsGateway.Gateway.CancelPetition` | ams/rams/librams.c:1622-1707 | Cancels to all of the SGS, to the sole member of the DGS, or not at all, taking off the SGS exactly whom it told |
| `RamsGateway.Gateway.HandlePetitionAssertion` | ams/rams/librams.c:1733-1939 | New state and success are those of the petition function: DGS entry, playback confirmation, conduit establishment, own assertion |
| `RamsGateway.Gateway.Establish` | ams/rams/librams.c:1848-1939 | Each petition not of the same key is sent to the new conduit if it is assertable and the node is in its assertion set |
| `RamsGateway.Gateway.HandlePetitionCancellation` | ams/rams/librams.c:1941-2168 | New state and success are those of the petition function, retraction of a neighbour included |
| `RamsGateway.Gateway.Retract` | ams/rams/librams.c:2070-2168 | A retracting neighbour leaves every SGS and DGS, is answered, and is no longer declared |
| `RamsGateway.Gateway.HandlePetitionRpdu` | ams/rams/librams.c:1450-1566 | Which RPDUs are handled, declared and logged, and which are dropped |
| `RamsGateway.Gateway.AddPetitioner` | ams/rams/librams.c:2560-2631 | The module joins the DMS of the petition with its key, created if need be, and the petition is asserted |
| `RamsGateway.Gateway.RemovePetitioner` | ams/rams/librams.c:2633-2686 | The module leaves the DMS; a petition no longer assertable is cancelled |
| `RamsGateway.Gateway.Handle` | ams/rams/librams.c:1207-1251 | A notice or RPDU moves the gateway as the run function says |
| `RamsGateway.Gateway.RehandlePetition` | ams/rams/librams.c:142-199 | One logged line handled again without telling anyone |
| `RamsGateway.Gateway.PlaybackPetitionLog` | ams/rams/librams.c:201-249 | The log replayed line by line, up to the first line that fails |
| `RamsGateway.Gateway.GetConduitForContinuum` | ams/rams/ramscommon.c:746-773 | The head of the first non-empty DGS on the continuum's pseudo-subject |
| `RamsGateway.Gateway.PetitionAssertionSet` | ams/rams/ramscommon.c:793-867 | The domain's nodes without the SGS and, if no module wants it, without a sole destination |
| `RamsGateway.Gateway.SendRPDU` | ams/rams/ramscommon.c:1098-1190 | One envelope to one declared neighbour, or failure |
| `RamsGateway.SubtractNodeSets` | ams/rams/ramscommon.c:704-723 | The in-place subtraction keeps order and drops exactly the members of the second set |
| `RamsGateway.AddNodeSets` | ams/rams/ramscommon.c:725-744 | The in-place union adds exactly the missing members, in order; modules are added the same way |
| `RamsGateway.Gateway.HandlePublishedMessage` | ams/rams/librams.c:2170-2296 | Relays the octets that the envelope announces to the deduplicated union of satisfied DGSs without the sender, then hands the message to the satisfied DMSs |
| `RamsGateway.Gateway.ForwardPublishedMessage` | ams/rams/librams.c:2688-2788 | Encloses a local publication in a new RPDU and sends that to the deduplicated union of satisfied DGSs |
| `RamsGateway.Gateway.HandleAnnouncedMessage` | ams/rams/librams.c:2381-2558 | The same octets go on: to every declared neighbour but the sender on a tree, if they are for all continua; to the conduit of another continuum |
| `RamsGateway.Gateway.HandlePrivateMessage` | ams/rams/librams.c:2298-2379 | The same octets go on to the conduit of another continuum |
| `RamsGateway.Gateway.ForwardTargetedMessage` | ams/rams/librams.c:2790-2889 | Only an announcement may go to all continua; otherwise to the conduit |
| `RamsGateway.Gateway.SatisfiesPetition` | ams/rams/ramscommon.c:406-476 | Yes iff the subject is the message's, the continuum 0 or the message's, the role 0 or the sender's, and the unit 0 or one whose name is a prefix of the name of the sender's unit |
| `Enclosures.PublicationReadBack` | ams/rams/ramscommon.c:238-292 | The gateways that relay a publication read from its RPDU just the message that its first gateway matched against petitions, iff the numbers fit their fields |
| `Enclosures.ConstructEnclosure` | ams/rams/ramscommon.c:238-286 | Fills a buffer with exactly the enclosure's octets |
| `Relaying.SendMessageReaches` | ams/rams/librams.c:2245-2262 | Sending to a list of nodes comes to one identical copy to each node up to the first undeclared one, and succeeds iff these are all |
| `Relaying.WantedByOthersNodes` | ams/rams/librams.c:2170-2296 | The destinations of a relayed publication: without duplicates, exactly the gateways other than the sender that some petition lists which has the message's subject, continuum 0 or the message's, role 0 or the sender's, and unit 0 or one that the sender's unit lies within |
| `Relaying.WantedByNodes` | ams/rams/librams.c:2688-2788 | The destinations of a local publication, by the same condition on keys and unit names |
| `Relaying.WantedByModulesExactly` | ams/rams/librams.c:2170-2296 | Each local module with a petition that meets the same condition is handed the message once, no other module is |
| `Relaying.AnnouncedTo` | ams/rams/librams.c:2405-2438 | Announcements to all continua are relayed to nobody on a mesh and to every declared neighbour but the sender on a tree; those to another continuum to the conduit there; those to the local one to nobody |
| `Relaying.TargetedTo` | ams/rams/librams.c:2790-2889 | Private messages go to the conduit of another continuum; of a local module's messages only announcements go to all declared neighbours, and none if for a negative continuum |
| `RelayLaws.AnnouncementReachesEveryoneOnce` | ams/rams/librams.c:2381-2438 | On any finite tree, in any order of arrival: an announcement to all continua reaches no gateway twice, never its origin, stops within one arrival per other gateway, and then every other gateway has it exactly once |
| `RelayLaws.AnnouncementGoesOn` | ams/rams/librams.c:2381-2438 | Relaying does not stall while a copy is under way |
| `RelayLaws.PublicationArrivesAtMostOnce` | ams/rams/librams.c:2170-2296 | On any finite tree, whatever the petition sets and unit hierarchies of the gateways hold and however they change meanwhile: at most once everywhere, never back at the origin, termination, and at rest exactly where the parent sent it |
| `RelayLaws.AtMostOnceAndTerminates` | ams/rams/librams.c:2381-2438 | The same for any gateways that send to tree neighbours but not back |
| `Routing.NetStaysOk` | ams/rams/librams.c:1450-1566 | In a network of gateways with ordered links, every steady run, to whatever subjects and under whatever keys modules subscribe, keeps each link consistent: who is declared, and who is listed in the DGS of a representable key, is exactly what the RPDUs handled so far say. A run is steady if no cancellation is taken for a retraction on it |
| `Routing.RunStaysOkIff` | ams/rams/librams.c:2044-2080 | The condition is exact: a run, whatever modules subscribe to, keeps all gateways and links in good order throughout iff it is steady |
| `Routing.StepKeepsOkIff` | ams/rams/librams.c:2044-2080 | Step by step: whatever a step is, it keeps them so iff it is not the arrival of a cancellation that the receiver takes for a retraction |
| `Routing.CancellationUndeclaresIff` | ams/rams/librams.c:1985-2080 | A cancellation from a declared neighbour undeclares it iff it is on that neighbour's own pseudo-subject, whatever role and unit it names, and the neighbour is listed under its key |
| `Retractions.UnsubscriptionUndeclares` | ams/rams/librams.c:2633-2686 | The failing input: a module of one of two gateways subscribes and unsubscribes under any representable all-continua key on its own continuum's pseudo-subject that is not the declaration itself; at the end of this run from startup its gateway is no longer declared at the other |
| `Retractions.UnsubscriptionRetractsIff` | ams/rams/librams.c:2633-2686 | A module's unsubscription makes its gateway, on a tree, send such a cancellation iff it is on the own pseudo-subject, nobody else wants the petition, and some neighbour holds it |
| `Routing.DrainedLink` | ams/rams/librams.c:1733-1788 | Once no RPDU about a representable key is under way, one gateway lists its neighbour in the DGS of a representable key iff the neighbour's SGS lists it, and neighbours are declared to each other |
| `Routing.InterestIsEverywhere` | ams/rams/librams.c:1568-1620 | At rest, local interest at one gateway in a representable all-continua key is known at every other, listed under the neighbour that leads there |
| `Delivery.EverySubscriberIsServed` | ams/rams/librams.c:2170-2296 | End to end: after any subscriptions of a steady run on a tree have propagated, to whatever subjects, the RPDU of a publication from anywhere reaches every other gateway with a satisfied all-continua subscription under a representable key exactly once, and the subscribed module is among those it is handed to, once; each gateway judges by its own unit hierarchy, and they are to agree that the message satisfies the subscription |
| `Domains.SubscriberOfContinuumIsServed` | ams/rams/ramscommon.c:746-867 | End to end for subscriptions limited to one continuum: after any subscriptions of a steady run on a tree have propagated, none of them to that continuum's pseudo-subject, each gateway asking only its conduit, a publication from that continuum reaches the gateway of every satisfied subscription under a representable key exactly once, and the subscribed module is among those it is handed to, once |
| `Domains.NetStaysSettledUp` | ams/rams/librams.c:1848-1939 | On every steady run over a tree on which no module subscribes to a continuum's pseudo-subject, a gateway that has a conduit to that continuum has sent it every assertable petition limited to it, on an application subject or under a representable key, unless the conduit alone wants it |
| `Domains.LimitedPetitionMatchesIff` | ams/rams/librams.c:1733-1788 | What a neighbour makes of a subscription limited to one continuum still matches the publications that it is for iff the low octet of that continuum's number is below 128 |
| `Domains.LimitedPetitionGoesAstray` | ams/rams/ramscommon.c:746-773 | If the low octet of that number d is 128 or more, the petition is sent to a gateway that has asked for subject 256 - d, up to 255 an unrelated application subject, from 384 on the pseudo-subject of continuum d - 256; nowhere iff nobody has |
| `Draining.PropagationEnds` | ams/rams/librams.c:1450-1566 | After any run over a tree on which modules keep to application subjects, under whatever keys, and with no further subscription: no sequence of arrivals holds infinitely many RPDUs about representable keys, every state can go on to one with none of these under way, and if all petitions have representable keys these are all there are |
| `Draining.ArrivalSucceeds` | ams/rams/ramscommon.c:1098-1190 | On such runs the next RPDU on any link, about whatever key, can be handled: every send that it calls for is to a declared neighbour and succeeds |
| `Draining.ArrivalLowersRank` | ams/rams/librams.c:1733-1939 | On such runs every arrival about a representable key either tells a gateway of a conduit it did not have, or takes more out of the backlog (RPDUs under way about representable keys, weighted by what lies behind the link, and SGS entries) than it adds, and no other arrival undoes this |
| `Draining.AssertionIssues` | ams/rams/ramscommon.c:793-867 | An assertion on an application subject is passed on to other neighbours than its sender only, each of them once |
| `Draining.NetStaysStanding` | ams/rams/librams.c:1622-1707 | On every run on which modules keep to application subjects no gateway's declaration is ever cancelled, petitions on application subjects are only ever sent to declared neighbours, and only these are listed |
| `Conduits.ConduitIsOnTheWay` | ams/rams/ramscommon.c:746-773 | At rest, every gateway's conduit to another continuum of the tree is its neighbour on the path there, if only that continuum's gateway has petitioned for its pseudo-subject |
| `Conduits.TargetedMessageFollowsHeader` | ams/rams/librams.c:2298-2379 | At rest after a steady run on which no module has subscribed to the pseudo-subject of the continuum that its envelope reads as, every private message, and every announcement to one continuum, follows the tree path to the gateway of that continuum, sent on to exactly one gateway each time until it is there; if there is no such gateway but the origin, it is never sent |
| `Conduits.TargetedMessageArrivesIff` | ams/rams/librams.c:2790-2889 | Likewise, a module's private message or announcement for continuum d arrives at d's gateway, and is taken there to be for its own modules, iff the low octet of d is below 128; otherwise it goes where one to d - 256 goes |
| `Conduits.PseudoSubscriptionMisleads` | ams/rams/ramscommon.c:746-773 | The condition is needed: once a module has subscribed to a continuum's pseudo-subject for all continua, every other gateway has a conduit there, and sends messages for it on even if the continuum has no gateway in the tree or is its own |
| `Conduits.NoConduitThere` | ams/rams/ramscommon.c:746-773 | If only its gateway has petitioned for a continuum's pseudo-subject, that gateway has no conduit to it, nor has any to one that has no gateway in the tree |
| `Envelope.EnvelopesAgree` | ams/library/libams.c:4931-4960 | The library's constructEnvelope and the gateway's ConstructEnvelope write the same octets for every continuum number there is |
| `Conduits.NetStaysOneWay` | ams/rams/librams.c:1733-1788 | On every steady run on which no module subscribes to a continuum's pseudo-subject a gateway hears of that continuum only from the neighbour towards it and never asserts back there |
| `Playback.PlaybackRebuilds` | ams/rams/librams.c:142-249 | On runs with any keys, but without retractions and without reassertions under representable keys, replaying the log rebuilds the declared neighbours and the DGS of every representable key |
| `Playback.ReplayAgreesIff` | ams/rams/librams.c:1763-1856 | After such a run from startup and one more event, the replayed state agrees with the live one iff that event is no reassertion and no retraction either |
| `Playback.ReplayListsUnderKeyIff` | ams/rams/librams.c:1763-1788 | A module subscribes to an application subject under any key for other continua than the local one, and a neighbour then asks for the same: the live gateway lists the neighbour under the key that the envelope gives, the replayed one iff the key is representable |
| `Playback.LineIsReplayedIff` | ams/rams/librams.c:142-199 | A logged line of an expected neighbour is replayed iff it is a cancellation, an assertion of a neighbour declared by then, or a declaration; nothing is sent or logged |
| `Playback.ReplayStopsAtFailure` | ams/rams/librams.c:201-249 | The replay stops at the first line that cannot be replayed |
| `Envelope.ConstructEnvelope` | ams/rams/ramscommon.c:45-70 | Fills the buffer with exactly the envelope's octets and the enclosure, and nothing else |
| `Envelope.HeaderUndoesConstruct` | ams/rams/ramscommon.c:110-157 | Field by field, the reader recovers what was built iff it fits and, for continuum and unit, its low octet is below 128 |
| `Envelope.KeyFromEnvelope` | ams/rams/ramscommon.c:298-323 | The key read from a petition's envelope, whatever its control code, is the one that the petition functions compute with |
| `Envelope.MatchesExactlyItsOwnKey` | ams/rams/ramscommon.c:387-404 | A petition built from four values matches exactly one combination of values, and this is the one it was built from iff that is representable |
| `Envelope.ReadBackKeepsApart` | ams/rams/ramscommon.c:110-157 | Of the keys that occur, none but itself reads back as a representable key; subject and role always come back |
| `Envelope.HeaderKeyIsRead` | ams/rams/ramscommon.c:110-157 | Every envelope gives a key of those that the laws cover |
| `Units.Venture.CreateUnit` | ams/library/amscommon.c:1654-1736 | Keeps the hierarchy exact (superunit = longest proper prefix, subunit lists = inverse) and adds the unit iff its name is unused |
| `Units.Venture.EraseUnit` | ams/library/amscommon.c:192-260 | Keeps the hierarchy exact and removes just that unit |
| `Units.Venture.InitializeUnit` | ams/library/amscommon.c:1577-1652 | The new unit takes over those subunits of its superunit that its name prefixes, and only those |
| `Units.Venture.IsSubunitOf` | ams/library/libams.c:451-467 | Climbing superunit links ends and answers yes iff the reference unit's name is a prefix of the argument unit's |
| `Units.Venture.PathToRoot` | ams/library/amscommon.c:1577-1736 | Every unit reaches the root, by way of exactly the units that contain it |
| `Units.NewUnitSuperunits` | ams/library/amscommon.c:1654-1736 | How longest-prefix superunits change when a name is added |
| `Units.ErasedUnitSuperunits` | ams/library/amscommon.c:192-260 | How longest-prefix superunits change when a name is removed |
| `MsgRules.FindRuleIsExact` | ams/library/libams.c:4620-4696 | Despite its early exits the search finds a rule iff one with exactly this key is there, and otherwise a place that keeps the order |
| `MsgRules.GetRuleIsMostSpecific` | ams/library/libams.c:469-516 | A rule is found iff one is for the sender's subject, for its role or any, for its continuum or any, and for a unit whose name is a prefix of its unit's; the one found is for the role if one is, then for the continuum if one is, then for the unit with the longest name |
| `MsgRules.EveryRunKeepsOrder` | ams/library/libams.c:4698-4868 | Every sequence of additions and removals of rules, erasures of units, and creations of units that come in time keeps the partial order |
| `MsgRules.CreationKeepsOrderIff` | ams/library/libams.c:4620-4696 | Creating a unit keeps a rule list in order iff no two rules of the same subject, role and continuum, one of them for the new unit, stand so that the later one's unit lies within the earlier one's |
| `MsgRules.ErasureKeepsOrder` | ams/library/libams.c:4620-4696 | Erasing a unit always keeps a rule list in order |
| `MsgRules.SearchesOnEveryRun` | ams/library/libams.c:469-516 | On every run from the empty list both searches are exact and no rule is ever duplicated |
| `MsgRules.AddRuleKeepsOrder` | ams/library/libams.c:4698-4748 | An added rule is in the list, the others are as before, and the list is in order |
| `MsgRules.RemoveRuleKeepsOrder` | ams/library/libams.c:4850-4868 | A removed rule is gone, the others are as before, and the list is in order |
| `MsgRules.RuleForMissingUnit` | ams/library/libams.c:4620-4696 | A rule for the root unit and one for a unit still to be created: created under whatever unused name, the unit's own rule is out of order and its messages go by the root unit's |
| `MsgRules.Sap.GetMsgRule` | ams/library/libams.c:469-516 | The loop computes the specified search, by climbing the live hierarchy |
| `MsgRules.Sap.FindMsgRule` | ams/library/libams.c:4620-4696 | The loop computes the specified search |
| `MsgRules.Sap.AddMsgRule` | ams/library/libams.c:4698-4748 | Adds in place unless the key is there; the other list is untouched |
| `MsgRules.Sap.RemoveMsgRule` | ams/library/libams.c:4850-4868 | Removes in place; the other list is untouched |
| `EventQueue.FirstInFirstOut` | ams/library/libams.c:88-199 | On every run the queue is sorted by priority leaving awaited replies aside, equal nonzero priorities leave in order of arrival, and no event is lost or doubled |
| `EventQueue.AwaitedReplyIsNextIff` | ams/library/libams.c:124-199 | On every run the reply that a query waits for, or an event that shuts a loop down, goes to the head, and is the very next event taken from the queue iff each event that arrives in between is neither of these and finds an event of equal or higher precedence waiting, other than an awaited reply |
| `EventQueue.AmsSap.InsertAmsEvent` | ams/library/libams.c:88-122 | The search of the table finds the place after the last event of equal or higher precedence, and the table stays exact |
| `EventQueue.AmsSap.EnqueueAmsEvent` | ams/library/libams.c:124-199 | The awaited reply and events of priority 0 go to the head, any other one behind the last event of equal or higher precedence; when an event is the awaited reply; and lastForPriority stays the last event of each priority or null |
| `EventQueue.AmsSap.NoteEventDequeued` | ams/library/libams.c:249-261 | Clears the first entry that is the element |
| `EventQueue.AmsSap.Dequeue` | ams/library/libams.c:5417-5420 | Takes the head and keeps the table exact |
| `EventQueue.EnqueuedOf` | ams/library/libams.c:88-199 | A new event is last of its priority, first if that is zero; an awaited reply disturbs no priority |
| `EventQueue.EnqueuedSorted` | ams/library/libams.c:88-122 | Enqueueing keeps the queue sorted |
| `FanIndex.Venture.NoteAssertion` | ams/library/libams.c:1555-1724 | A new interest goes into both lists, the out-of-sync branch is never taken, the rule is noted among that interest's rules, which stay in order if they were, and nothing else changes |
| `FanIndex.Venture.ProcessCancellation` | ams/library/libams.c:2014-2084 | The rule leaves the interest's list, which stays in order; the interest stays in both lists |
| `FanIndex.Venture.ForgetModule` | ams/library/amscommon.c:2141-2160 | The module's lists are emptied, exactly its entries leave every fan-out list, and its endpoint and role are cleared |
| `FanIndex.Venture.NoteUnit` | ams/library/libams.c:1435-1498 | A new unit leaves the mutual index alone, and keeps every list of transmission rules in order, if they were, iff it comes too late for none of them |
| `FanIndex.Venture.ForgetUnit` | ams/library/amscommon.c:192-260 | Erasing a unit leaves the index alone and keeps the lists in order |
| `FanIndex.Venture.DropInterest` | ams/library/amscommon.c:1546-1554 | Destroying an interest removes it from both directions |
| `FanIndex.Venture.MutualInverses` | ams/library/libams.c:1555-1627 | For every module and subject the two lists show the same interest or none |
| `FanIndex.Venture.InterestForSending` | ams/library/libams.c:5230-5283 | Whichever list is shorter and searched, the same interest is found, that in all subjects included |
| `FanIndex.FindSubjOfInterest` | ams/library/libams.c:1353-1387 | Early exit on ascending subjects is exact, and names the insertion point |
| `FanIndex.FindFanModule` | ams/library/libams.c:1389-1433 | Early exit on ascending (unit, module) is exact, and names the insertion point |
| `FanIndex.Venture.FindXmitRule` | ams/library/libams.c:1435-1498 | The loop computes the specified search among rules of one subject |
| `FanIndex.NotedIsKept` | ams/library/libams.c:1634-1672 | Noting a rule keeps the order and touches no other key's rule: one to the same endpoint with the same priority and flow label stays, confirmed if asked for; otherwise the noted rule takes its place |
| `FanIndex.IsAuthorized` | ams/library/libams.c:1701-1724 | The early exit on ascending names finds the role iff it is listed |
| `Registrar.ReconnectionsPrecedeRegistrations` | ams/library/amsd.c:1349-1641 | In every run all accepted reconnections precede all accepted registrations |
| `Registrar.ClockStandsStill` | ams/library/amsd.c:916-922 | On every run the census clock stands still until a heartbeat cycle finds the configuration server known |
| `Registrar.ClockCounts` | ams/library/amsd.c:916-922 | From that cycle on it counts every cycle |
| `Registrar.RegistrationFromFourthCycle` | ams/library/amsd.c:1349-1462 | On every run a well-formed, reachable registration is refused for want of a census before the fourth cycle of the clock; from then on it gets the lowest free number of 1 to 255, unless all are taken or the answer cannot be delivered, which leaves every number with whoever had it |
| `Registrar.NoReconnectionFromFourthCycle` | ams/library/amsd.c:1499-1522 | From the fourth cycle of the clock on whoever asks to reconnect is told that it is dead |
| `Registrar.IgnoredMessages` | ams/library/amsd.c:1349-1372 | Malformed messages and those of senders that cannot be reached change nothing and are not answered |
| `Registrar.HeartbeatClears` | ams/library/amsd.c:1237-1258 | A heartbeat of the own venture and unit under a taken number of 1 to 255 clears the count of that number to 0; nothing else changes, and any other heartbeat changes nothing |
| `Registrar.QuietOwnerDiesAtFourthCycle` | ams/library/amsd.c:926-966 | On every run an owner whose count stands at 0 and that is not heard from keeps its number for three cycles and is presumed dead at the fourth |
| `Registrar.OwnerHeardInTimeStays` | ams/library/amsd.c:926-966 | On every run an owner that is heard from before each fourth cycle since it last was keeps number and endpoint unless it stops |
| `Registrar.FreeNumberDoesNotAge` | ams/library/amsd.c:926-933 | The count that goes with a free number stands still |
| `Registrar.AcceptanceFillsFreeSlot` | ams/library/amsd.c:1349-1641 | Whoever is accepted gets a free number, with the count of heartbeats missed under it, and no other slot changes; the slot is taken from then on iff the venture knows the role |
| `Registrar.NumberKeptIff` | ams/library/amsd.c:904-980 | A module loses its number iff it stops or has missed three heartbeats |
| `Registrar.NumberIsNeverGivenAway` | ams/library/amsd.c:1349-1641 | Over any stretch of a run without those, its number and endpoint stay its own and nobody else is accepted under them |
| `Registrar.SameNumberTwiceIff` | ams/library/amsd.c:1387-1427 | Of two registrations accepted in a row, the first as the message layer passes it, the second gets the first one's number iff the first one is in role 0 or comes from another venture in a role that the registrar's does not have |
| `Registrar.OwnRegistrationTakesNumberIff` | ams/library/amscommon.c:1033-1043 | A registration of the registrar's own venture that the message layer passes and the registrar accepts takes its number iff its role is not 0 |
| `Registrar.RoleZeroRegistersTwice` | ams/library/amsd.c:1387-1427 | The failing input: every well-formed registration in role 0 from a unit of the venture is passed and accepted, and sent twice is given the same number twice |
| `Registrar.NewcomerBuriedAtOnceIff` | ams/library/amsd.c:904-967 | Whoever is accepted is presumed dead at the next heartbeat cycle iff its predecessor under that number had missed three heartbeats |
| `Registrar.SilentOwnerIsNeverBuried` | ams/library/amsd.c:904-967 | On every stretch of every run, the owner of a number whose count is past three keeps it for ever as long as it neither stops nor sends a heartbeat |
| `Registrar.NoSecondBurial` | ams/library/amsd.c:904-967 | On every run: once an owner of a number has been presumed dead, and while no heartbeat arrives for that number, nobody who has it later, however often it changes hands, is presumed dead |
| `Registrar.OnlyExpectedModulesReconnect` | ams/library/amsd.c:1556-1632 | While reconnections are expected, only expected modules are accepted, never one numbered 128 or more, and each is counted off |
| `Registrar.CensusIsTakenDown` | ams/library/amsd.c:1597-1641 | The first to reconnect has exactly those with listed numbers from 1 to 127 expected, and how many it lists; each one that reconnects is expected no longer and counted off |
| `Registrar.RunKeepsCensus` | ams/library/amsd.c:1603-1632 | The count of modules to come is never below the number marked, so never negative |
| `Registrar.RegistrationIsReadIffWhole` | ams/library/amsd.c:1349-1372 | A registration that carries a module's contact summary gives the registrar its endpoint name, whatever follows; cut short anywhere it is ignored |
| `Registrar.ReconnectIsReadIffWhole` | ams/library/amsd.c:1499-1559 | A reconnect message is read whole iff its module list has as many numbers as it says; with more or fewer, or cut short after the endpoint name, it has no module list, and cut short before it is ignored |
| `Registrar.ModuleReconnectsIff` | ams/library/amsd.c:1477-1641 | A reconnect message as modules build it is always well formed, and is accepted iff the number is free and expected |
| `Registrar.RsState.HandleRegistration` | ams/library/amsd.c:1349-1451 | State and reply are those of the specification |
| `Registrar.RsState.HandleReconnect` | ams/library/amsd.c:1477-1641 | State and reply are those of the specification, number 0 included |
| `Registrar.RsState.HandleStopping` | ams/library/amsd.c:1453-1475 | State is that of the specification |
| `Registrar.RsState.HandleHeartbeat` | ams/library/amsd.c:1237-1258 | A heartbeat from a taken number of this cell clears its count, any other changes nothing here |
| `Registrar.RsState.ProcessHeartbeatCycle` | ams/library/amsd.c:904-967 | Every second beat the loop over the slots adds 1 to the count of each taken number and buries its owner if the count stood at three, and the census clock goes on once started or while the server is known |
| `Registrar.RsState.LoadCensus` | ams/library/amsd.c:1603-1621 | The loop marks the listed modules below 128 |
| `Registrar.RsState.FindFreeNumber` | ams/library/amsd.c:1387-1404 | The lowest free number, or 0 if the cell is full |
| `ContactSummary.GetContactSummaryLength` | ams/library/libams.c:1170-1202 | The computed length is that of the octets written |
| `ContactSummary.GetDeclarationLength` | ams/library/libams.c:1100-1109 | The computed length is that of the octets written |
| `ContactSummary.LoadContactSummary` | ams/library/libams.c:1204-1255 | Writes exactly the summary's octets and leaves the rest of the buffer |
| `ContactSummary.LoadDeclaration` | ams/library/libams.c:1133-1168 | Writes exactly the declaration's octets and leaves the rest of the buffer |
| `ContactSummary.LoadAssertion` | ams/library/libams.c:1111-1131 | Writes exactly nine octets and advances the cursor past them |
| `ContactSummary.BuildReconnect` | ams/library/libams.c:3085-3120 | The buffer of the precomputed length is filled with exactly the reconnect supplement |
| `ContactSummary.ParseString` | ams/library/amscommon.c:2067-2089 | Stops just past the first NUL, or fails if there is none |
| `ContactSummary.SkipDeliveryVectorList` | ams/library/amsd.c:1118-1141 | Cursor and octets remaining move as the offset function says |
| `ContactSummary.SkipDeclaration` | ams/library/amsd.c:1143-1196 | Cursor and octets remaining move as the offset function says |
| `ContactSummary.RegistrarFindsModuleList` | ams/library/amsd.c:1525-1554 | For every module with NUL-free names and no empty vector, the skips consume exactly what the encoders wrote and land where the module list is, whatever is there |
| `ContactSummary.VectorListInPrefix` | ams/library/amsd.c:1118-1141 | However a message is cut short, stepping over delivery vectors ends where it would have, or fails |
| `ContactSummary.DeclarationInPrefix` | ams/library/amsd.c:1143-1196 | The same with declarations |
| `ContactParsing.ParseAmsEndpoint` | ams/library/libams.c:2086-2131 | The loop reads up to an equals sign and then up to a comma or NUL |
| `ContactParsing.ParseDeliveryVector` | ams/library/libams.c:2203-2277 | The loop reads as many endpoints as the first octet says |
| `ContactParsing.ParseDeliveryVectorList` | ams/library/libams.c:2279-2305 | The loop reads as many vectors as the first octet, a signed char, says |
| `ContactParsing.ParseAssertions` | ams/library/libams.c:1953-1984 | The loop reads as many assertions as the count says |
| `ContactParsing.SummaryAndDeclarationAreRead` | ams/library/libams.c:1953-2305 | For up to 127 vectors of 1 to 15 interfaces with names free of separators, endpoint, vectors, subscriptions and invitations are read back exactly, nothing left over |
| `ContactParsing.RuleIsRead` | ams/library/libams.c:1832-1884 | An assertion's nine octets give back its seven fields |
| `MamsMessage.SendMamsMsg` | ams/library/amscommon.c:2164-2301 | A message is dropped iff the MIB does not know its sender; one that is sent carries the name of the role, if that is above 0, of the venture's application if it is 0, and of the configuration server for venture 0; and the octets sent |
| `MamsMessage.MamsQueue.EnqueueMamsMsg` | ams/library/amscommon.c:2376-2569 | Exactly the acceptable messages are enqueued, and only then does the queue change: a well-formed message is accepted iff the MIB knows its sender and it names that sender's role, application or configuration server, where that has a key |
| `MamsMessage.MamsQueue.EnqueueMamsEvent` | ams/library/amscommon.c:2305-2374 | An order to shut down goes to the head; the awaited response goes to the head and ends the wait; others go to the end |
| `MamsMessage.WhoseName` | ams/library/amscommon.c:1000-1065 | Who has to name whom, and which senders the MIB does not know |
| `MamsMessage.UncheckedMessageIsReadIff` | ams/library/amscommon.c:2376-2503 | A message without checksum, with any time tag, authenticator and supplement, is read iff the tag is of the known kind and nothing is left over; type, sender, memo and supplement come out |
| `MamsMessage.CheckedMessageIsReadIff` | ams/library/amscommon.c:2448-2466 | One with checksum iff moreover its last two octets are the sum of the words before them |
| `MamsMessage.RoundTrip` | ams/library/amscommon.c:2164-2569 | Every message built under matching MIBs is accepted and gives back type, venture, unit, role, memo and supplement |
| `MamsMessage.WrongPartyIsRejected` | ams/library/amscommon.c:2505-2539 | A built message is accepted iff the receiver knows the sender and, if it has a key for it, by the same name and with an authenticator |
| `MamsMessage.CheckAuthenticator` | ams/library/amscommon.c:2511-2539 | The authenticator repeats its nonce and names the party |
| `MamsMessage.AfterTimeTag` | ams/library/amscommon.c:2415-2447 | The cursor loops step over exactly the time tag the preamble describes |
| `MamsMessage.ModuleIdRoundTrip` | ams/library/amscommon.c:2028-2065 | Module identifiers come back whole; anything else that fits the fields is refused |
| `Checksum.ComputeAmsChecksum` | ams/library/amscommon.c:733-755 | For every length the wrapping 32-bit sum gives the exact sum of big-endian words modulo 65536 |
| `Checksum.SumsAgree` | ams/library/amscommon.c:733-755 | The word sum and the octet-by-octet sum are the same |
| `Checksum.ValidateAmsMsg` | ams/library/libams.c:518-547 | Accepts a message, up to its sender, exactly as specified and gives its content length |
| `Checksum.ContentIsMeasured` | ams/library/libams.c:518-562 | A message is valid iff it has a header and, if flagged, the right sum at its end; its content length is that of what lies between |
| `Checksum.ClosedMessageIsValid` | ams/library/libams.c:518-547 | A message closed with its checksum passes |
| `Checksum.OneWrongOctetIsNoticed` | ams/library/libams.c:518-547 | One changed octet goes unnoticed iff it clears the checksum flag |

## Left out

- Transports, sockets, BP, UDP, TCP, DGR and VMQ: a send is a log entry or a packet; a transport's own failures and the
  UDP retransmission of declarations are not modelled.
- Threads, locks, condition variables, timers and signals: each handler is one step; waking a waiting thread is not
  modelled.
- Memory allocation failure and the CHK macros: allocation succeeds, and the checks are preconditions.
- Cryptography and key lookup: encryption is the identity, and of a key only whether there is one matters.
- The value of a MAMS time tag: only its length is modelled.
- MIB files, loading, transport service selection, utilities, and the AAMS message header that constructMessage builds.
- RamsGateway.Gateway.HandlePetitionAssertion: leaves out the gateway module's own subscription to what it is asked for,
  and its failure.
- RamsGateway.Gateway.HandlePetitionCancellation: leaves out the gateway module's own unsubscription, and its failure.
- RamsGateway.Gateway.PlaybackPetitionLog: starts from the parsed lines; reading the log's text is left out.
- RamsGateway.Gateway.SendRPDU: destination 0, to all expected neighbours, occurs only at startup, where the constructor
  models it; here it names no declared neighbour and fails.
- RamsGateway.Gateway.HandlePublishedMessage: handing the message to a local module is an entry in the returned list and
  cannot fail. An enclosure shorter than a message header, whose missing octets the code reads from what the buffer held
  before, is excluded, and so are source unit numbers above MAX_UNIT_NBR, which index past the venture's units.
- RamsGateway.Gateway.HandleAnnouncedMessage: leaves out the announcement to invited local modules.
- RamsGateway.Gateway.HandlePrivateMessage: leaves out the delivery to an invited local module.
- Termination of a gateway, invitations and registration notices.
- Erasing subjects or whole ventures at run time: eraseSubject does not unlink interests.
- A transmission rule's pointer back to its fan-out entry, which the code leaves null for a second rule of an interest.
- FanIndex.Venture.NoteAssertion: leaves out the notices given with an assertion, that of a cancellation for a replaced
  rule included.
- FanIndex.Venture.ProcessCancellation: leaves out its notice, and which subject a number names, number 0 and unknown
  numbers included.
- Confirmation sweeps over transmission rules (cancelUnconfirmedAssertions): they delete rules, not interests.
- Cells, modules and resync periods inside units: the hierarchy is its numbers, names and links.
- The TCP connection pools.
- Role names, authorized receivers and subject names are numbers in the order strcmp gives them.
- List elements and the data they hold are the same thing; lists whose elements are only
  inserted, found and deleted are sequences that the methods reassign.
- Petition envelopes are held as immutable octets, since no code changes one after building it.
- parseAmsEndpoint overwrites separators with NULs in the received buffer; ContactParsing reads without writing.
- ContactParsing.ParseDeliveryVector: leaves out the choice of the first usable interface of a vector and its place in the
  module's endpoint list.
- ContactParsing.ParseAssertions: leaves out the processing of each assertion as it is read, which may fail.
- Registrar.RsState.HandleRegistration: leaves out telling the other cells of a new module.
- Registrar.RsState.HandleHeartbeat: leaves out what a heartbeat that names another cell does there.
- Registrar.RsState.ProcessHeartbeatCycle: leaves out the heartbeats and obituaries sent, and the resync.
- Demand.FirstSubscriptionAsks: covers petitions for all continua; where one limited to a continuum goes is in
  LimitedSubscriptionAsks and in Domains.
- Demand.LimitedSubscriptionAsks: covers a petition that is known already.
- Demand.FirstAssertionAsks: covers petitions for all continua on application subjects; what an assertion on a
  pseudo-subject leads to is in PetitionLaws.EstablishKeeps and NothingLeftToAssert.
- Demand.AssertionAsks: the same.
- Routing, Delivery, Conduits, Domains and Lingering cover what gateways do up to the first retraction, real or
  supposed: steady runs, which are exactly those that keep the links in order (Routing.RunStaysOkIff). What a gateway
  does on a retraction is in Petitions and PetitionLaws.
- Delivery.EverySubscriberIsServed: covers steady runs.
- Domains.SubscriberOfContinuumIsServed: excludes steady runs on which a module subscribes to that continuum's
  pseudo-subject.
- Domains.NetStaysSettledUp: the same exclusion.
- Conduits.NetStaysOneWay: the same exclusion.
- Conduits.TargetedMessageFollowsHeader: the same exclusion; PseudoSubscriptionMisleads shows that it is needed.
- Conduits.TargetedMessageArrivesIff: the same exclusion.
- Draining.NetStaysStanding: asks that modules keep to application subjects.
- Draining.ArrivalSucceeds: asks that modules keep to application subjects.
- Draining.ArrivalLowersRank: asks that modules keep to application subjects.
- Draining.PropagationEnds: asks that modules keep to application subjects, since a subscription to a pseudo-subject can
  make gateways retract each other; and it leaves open whether RPDUs about other keys, of which a neighbour may be sent
  one twice (`PetitionLaws.SecondSubscriberJoinsIff`), die out as well.
- MsgRules.EveryRunKeepsOrder: excludes units created too late; CreationKeepsOrderIff shows that this is exact.
- Playback.PlaybackRebuilds: excludes retractions and reassertions, and keys that are not representable;
  ReplayAgreesIff and ReplayListsUnderKeyIff show that both are exact.
- ContactSummary.RegistrarFindsModuleList: says nothing about how modules of other versions encode.
