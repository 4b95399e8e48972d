# p2pmq: verified model of the message agent and its two report protocols

This project models, in Dafny, the parts of p2pmq that carry its guarantees, and proves those guarantees
for every input, every run and every interleaving of the modelled steps.

* **Threshold keys** (`PrimeField`, `Interpolation`, `ThresholdKeys`). Dealing key shares from a polynomial
  and recovering a signature by Lagrange interpolation. Curve points are represented by their discrete
  logarithms, so that a signature is a product in the prime field of the group order.
* **Report cache** (`Modular`, `Ring`, `ReportCache`). The fixed-size cache indexed by sequence number modulo
  its size. `ReportCache` is the mutable program, `Ring` its value; `Ring` is proved to agree with the whole
  history of offers. Sequence number 0 marks an empty slot, so the results speak of numbers from 1.
* **Admission** (`Admission`, `BlsAdmission`, `DonVerifier`). The sequence rule with unsigned and signed
  64-bit differences, the signature quorum of a DON report, and whole runs of validate-then-add.
* **BLS signers** (`Quorum`, `BlsNode`, `BlsProgram`, `BlsSigning`, `BlsCompletion`, `BlsResigning`, `BlsNetwork`,
  `BlsGuarantees`, `BlsLimits`, `BlsDelays`, `BlsDelayRuns`, `BlsReconstruction`, `BlsMixing`). One node's
  handling of a report, runs of one node, and a network of honest and Byzantine signers with a pool of messages
  in which anything ever broadcast can be delivered any number of times, in any order. Signatures are symbolic,
  but follow the algebra of the keys: anyone may say any signature of a Byzantine member, any signature that was
  made, and, as keys are shares of one polynomial, any member's signature on data that a quorum has signed or
  may have signed (`ThresholdKeys.OthersDetermine`). Fewer signatures determine nothing
  (`ThresholdKeys.FewerSharesFitEveryValue`).
* **Routing and validation** (`Router`, `RouterTrace`, `Rendezvous`, `RendezvousTrace`, `ValidationFlow`,
  `ValidationVerdict`). The bounded queue with its loops and
  worker tokens, the rendezvous of waiting validations with client replies, and both together under
  `validateMsg`, as transition systems whose steps are the channel and lock operations.
* **Signing preimage** (`Keyring`). The byte layout of a report context and what an oracle signs.

`Options` and `Collections` hold shared helpers. `dafny verify dfyconfig.toml` checks the whole project.

Main results:

* Agreement: inside the window, no two data gather a quorum under one number while fewer than n - 2f signers
  (at least f + 1) are Byzantine or triggered twice (`BlsNetwork.Agreement`), and this is exactly the number
  that can be tolerated, for every n (`BlsLimits.AgreementIff`). For the valid signatures in circulation, made
  or derived, this is `BlsGuarantees.SignatureAgreement`.
* With no bound on delays agreement survives b Byzantine signers exactly if b = 0, or n divides 128 and
  b < n - 3f: derived signatures turn up to f honest signers into double signers
  (`BlsDelayRuns.AgreesAnyDelayIff`). For n = 4 this leaves b = 0.
* Inside the 128-wide window an honest follower signs a number at most once, on the leader's data, and exactly
  when it was given the leader's report and no report under its own id before
  (`BlsGuarantees.FollowersSignExactly`); derived signatures can silence it (`BlsLimits.SilencedRun`). Outside
  the window a node can sign twice; `BlsResigning.ResignsIff` says exactly when, and
  `BlsResigning.AlwaysSignsOnceIff` and `BlsResigning.SignsOnceUnguardedIff` for exactly which n it never
  happens, with and without a check on reports under the own id.
* With any Byzantine members, a reconstructed report verifies under the network key if and only if the errors
  of its parts cancel, in particular if all parts cover its data
  (`BlsReconstruction.ReconstructedVerifiesIff`, `BlsReconstruction.CoveredReportsVerify`). A network without
  Byzantine members meets that (`BlsReconstruction.HonestReportsVerify`); one dissenting follower is enough
  to break it (`BlsMixing.MixedRunVerifiesIff`), since nothing compares the data of collected signatures.
* The cache refines the history of offers, independently of their order.
* Validation is fail-closed under every interleaving exactly for the messages that meet PushWait: their verdict
  is the one a client's reply for that very id gave while PushWait waited for it, and Ignore in every other case
  (`ValidationVerdict.VerdictIsExact`, `ValidationFlow.AcceptIff`). Before PushWait is installed it is open
  (`ValidationFlow.OpenBeforeInstall`).
* A node reconstructs exactly when a new report, with its own answer if it gave one, leaves it with more than a
  quorum of readable signatures (`BlsCompletion.RecoversIff`).

Assumptions, each a hypothesis of the lemmas that need it:

* Deliveries fall inside the window (`BlsNetwork.AllWindowed`).
* Reports under a node's own id come back to it only for numbers that it signed or leads
  (`BlsSigning.Authentic`), where agreement is to hold without a window for more than the numbers above. A node
  could check this, the source does not (examples/bls/node_internalnet.go:12-25), and the network does not
  provide it: `BlsDelayRuns.PushRun` and `BlsLimits.SilencedRun` are the runs that fail without it.
* The data of a report determine its sequence number. For agreement on signatures inside the window it is enough
  that triggered reports and delivered reports of a number's leader carry the number their data name
  (`BlsGuarantees.Bound`); results with no bound on delays ask it of all delivered reports
  (`BlsGuarantees.Named`). Nothing in the source checks this, because a signature covers only the data. A
  Byzantine leader can break it, and anyone can by repeating an old signature under another number:
  `BlsLimits.UnboundRun` and `BlsMixing.ReplayRun` show what then fails. `BlsNetwork.Agreement`, which speaks of
  the number a report was signed under, does not need it.
* The group order is a prime above the number of signers, and keys are dealt with the quorum as threshold.

Where code and documentation disagree the model follows the code: resources/docs/README.md:133-134 calls
messages *older than* a threshold invalid or ignored, while the code measures how far a report is *ahead* of
the latest one. `BlsAdmission.Intended` and `DonVerifier.ValidateMeans` state the resulting rules. Quorum
detection compares with `>=` and the final broadcast with `>`, as in the code.

## Model

| member | source | states |
|---|---|---|
| ThresholdKeys.GenShares | examples/bls/gen.go:31-63 | the shares are the values of one polynomial with the secret as constant term, at exactly the ids 1..count, with matching public shares |
| ThresholdKeys.VerifiesIff | examples/bls/share.go:16-19 | a signature verifies exactly under the key that made it and for the message that was signed, up to zero in the field |
| ThresholdKeys.RefusesIff | examples/bls/reconstruct.go:35-37 | recovery fails exactly for no parts, an id that is no nonzero field element, or a repeated id |
| ThresholdKeys.ReconstructSigs | examples/bls/reconstruct.go:12-38 | fails if any part does not deserialize; otherwise gives the Lagrange value of the parts, the same for every order in which the map is visited |
| ThresholdKeys.RecoveryIgnoresOrder | examples/bls/reconstruct.go:18-35 | any two enumerations of the same parts recover the same result, valid or not |
| ThresholdKeys.RecoversMasterSignature | examples/bls/reconstruct.go:9-38 | parts of at least threshold dealt shares on one message recover exactly the master key's signature, in any order |
| ThresholdKeys.FewerSharesFitEverySecret | examples/bls/gen.go:36-40 | fewer shares than the threshold are consistent with every secret, so the threshold is tight |
| ThresholdKeys.FewerSharesFitEveryValue | examples/bls/gen.go:36-40 | such shares are consistent with every value at every other id as well, so they give no other signer's part |
| ThresholdKeys.OthersDetermine | examples/bls/gen.go:31-63 | as many valid parts on one message as the key polynomial has coefficients give anyone the valid part of every other signer |
| ThresholdKeys.RecoversIffErrorsCancel | examples/bls/reconstruct.go:12-38 | for any number of wrong parts: recovery always yields a value, and it is the master signature if and only if the errors, weighted by their Lagrange coefficients, cancel in the field |
| ThresholdKeys.OneWrongPartSpoils | examples/bls/reconstruct.go:12-38 | if all parts but one are right, the master signature is recovered if and only if that one is right |
| Interpolation.CoefficientsSumToOne | examples/bls/reconstruct.go:35-35 | the Lagrange coefficients at zero of any distinct nonzero ids sum to one in the field |
| Interpolation.Interpolates | examples/bls/reconstruct.go:35-35 | values at no fewer points than coefficients, weighted by the Lagrange coefficients, give the value at zero |
| PrimeField.InverseLaw | examples/bls/gen.go:19-19 | every nonzero residue of the prime group order has the computed multiplicative inverse |
| Ring.SlotRefinesHistory | examples/bls/reportbuf.go:29-48 | after any offers, each slot holds the first report offered with the largest number of its residue class, or nothing |
| Ring.GetRefinesHistory | examples/bls/reportbuf.go:71-88 | Get finds a number if and only if it was offered for the key and no larger congruent number was, and returns the first such offer |
| Ring.AddedIff | examples/bls/reportbuf.go:40-47 | an Add succeeds if and only if no congruent number at least as large was offered before for the key |
| Ring.AddedOnce | examples/don/reportbuf.go:20-39 | in every order of Adds at most one per key and number succeeds |
| Ring.LatestRefinesHistory | examples/bls/reportbuf.go:124-143 | the latest report has the largest number ever offered for the key; there is none if and only if no positive number was offered |
| Ring.WindowIsComplete | examples/bls/reportbuf.go:29-48 | every number offered within one buffer size of the latest is still retrievable |
| Ring.OrderIndependent | examples/bls/reportbuf.go:29-48 | the same offers in any order and multiplicity give the same buffer when key and number determine the report |
| Ring.WindowedAdd | examples/bls/reportbuf.go:90-103 | inside the window an Add keeps every report of a number, and adds at most its own key to Lookup of that number |
| Ring.WindowedAddSucceeds | examples/bls/reportbuf.go:40-47 | inside the window an Add succeeds if and only if its key holds no report with that number |
| ReportCache.ReportBuffer.constructor | examples/bls/reportbuf.go:23-27 | a new buffer is the empty ring of its size |
| ReportCache.ReportBuffer.Add | examples/bls/reportbuf.go:29-48 | the slices in place become the ring after Add, and the result says whether the report was taken |
| ReportCache.ReportBuffer.Get | examples/bls/reportbuf.go:71-88 | the report the ring holds for key and number, or none |
| ReportCache.ReportBuffer.Lookup | examples/bls/reportbuf.go:90-103 | a duplicate-free list of exactly the keys that hold the number |
| ReportCache.ReportBuffer.GetLatest | examples/bls/reportbuf.go:124-143 | the report with the highest number held for the key, none for an unknown key |
| Admission.LatestAfterAdd | examples/don/reportbuf.go:61-80 | a successful Add moves the latest number to the maximum of the old one and the new |
| Admission.AboveLatestIsAdded | examples/bls/reportbuf.go:42-46 | a number above the latest is never present and always taken |
| BlsAdmission.ValidateSequence | examples/bls/reportbuf.go:105-122 | the verdict is the sequence rule applied to the buffer's value, with the wrapping unsigned difference |
| BlsAdmission.UnknownIsAccepted | examples/bls/reportbuf.go:106-121 | every number of a network that the buffer does not hold yet is accepted |
| BlsAdmission.ValidateExact | examples/bls/reportbuf.go:105-122 | for every 64-bit number and latest one, wrapping included: rejected iff more than 25 ahead, accepted iff at most 5 ahead and not held, otherwise ignored |
| BlsAdmission.ValidateBelowWrap | examples/bls/reportbuf.go:105-122 | on a non-empty buffer below the wrap, one to five ahead is accepted, the latest and six to twenty-five ahead ignored, all else rejected |
| BlsAdmission.ValidateIsIntendedIff | examples/bls/reportbuf.go:108-116 | that rule holds for all 64-bit numbers if and only if the latest number plus 25 stays below 2^64 |
| BlsAdmission.AdmittedInSmallSteps | examples/bls/reportbuf.go:105-143 | in every run of validate-then-add the recorded numbers increase by steps of one to five, so k accepts move the latest by between k and 5k |
| BlsAdmission.AdmitsFromEmpty | examples/bls/reportbuf.go:105-143 | a run of validate-then-add on an empty buffer records exactly the first positive number and then each that is one to five ahead of the last recorded |
| BlsAdmission.TakenSteps | examples/bls/reportbuf.go:105-143 | so something is recorded as soon as a number is positive, starting with the first positive one, in steps of one to five |
| DonVerifier.ValidateSequence | examples/don/verifier.go:67-83 | the verdict, or the index panic, is the rule applied to the buffer's value with the wrapping signed difference |
| DonVerifier.UnknownIsAccepted | examples/don/verifier.go:79-82 | every number of a DON that the buffer does not hold yet is accepted |
| DonVerifier.ValidateExact | examples/don/verifier.go:67-83 | the whole rule for a known DON and any number, negative or wrapping: exactly when it panics, rejects, accepts or ignores |
| DonVerifier.ValidateMeans | examples/don/verifier.go:67-83 | for numbers from 0: rejected iff more than 25 ahead, accepted iff at most 5 ahead and not held, however old |
| DonVerifier.PanicsIff | examples/don/reportbuf.go:53-54 | validation panics if and only if the DON is known to the buffer and the number is negative, no multiple of the size and not screened off by a wrapped difference |
| DonVerifier.AddNegative | examples/don/reportbuf.go:31-38 | adding a negative number panics unless it is a multiple of the size, and never records it |
| DonVerifier.AcceptedIsAdded | examples/don/verifier.go:67-83 | an accepted positive number less than a buffer size below the latest is always taken by the following Add |
| DonVerifier.AdmittedIsLinked | examples/don/verifier.go:67-83 | in every run no number is recorded twice, the latest is the largest recorded, and each recorded number above the first has another within the five below it |
| DonVerifier.FirstIsRecorded | examples/don/verifier.go:67-83 | a run records something as soon as a number is positive, starting with the first positive one |
| DonVerifier.CountValid | examples/don/verifier.go:41-52 | counts the known oracles that signed, and stops if and only if one of their signatures is invalid, in any map order |
| DonVerifier.Process | examples/don/verifier.go:27-65 | undecodable is rejected, unknown DON ignored; the sequence rule decides if and only if every present signature verifies and n - f are present |
| DonVerifier.QuoratesIntersect | examples/don/verifier.go:54-62 | two reports that pass for the same non-empty DON share more than f oracles |
| Quorum.MaxFaulty | examples/bls/share.go:47-51 | f satisfies 3f + 1 <= n <= 3f + 3 for n > 0, and is 0 for n = 0 as with truncating division |
| Quorum.QuorumsIntersect | examples/bls/share.go:47-51 | any two sets of n - f members share at least n - 2f, hence more than f |
| BlsNode.IsProcessable | examples/bls/node_internalnet.go:132-143 | true if and only if the leader is among the signers and this node is not |
| BlsNode.CollectSignatures | examples/bls/node_internalnet.go:84-105 | exactly the deserializable signatures held for the number by the given signers |
| BlsNode.TryReconstruct | examples/bls/node_internalnet.go:50-65 | reconstructs from all collected signatures if and only if signers reach the quorum and signatures exceed it |
| BlsNode.SignReport | examples/bls/node_internalnet.go:39-46 | the own signed report is added in place, and reconstruction follows only if its broadcast succeeded |
| BlsNode.RespondToReport | examples/bls/node_internalnet.go:39-66 | the in-place continuation after a successful Add agrees with the step function on buffer, own signature and reconstruction |
| BlsNode.HandleReport | examples/bls/node_internalnet.go:27-70 | the in-place handler of one report agrees with the step function that the run theorems, HandleIsAdds and RecoversIff are about |
| BlsCompletion.RecoversIff | examples/bls/node_internalnet.go:36-60 | for every report, inside the window or not: exactly when a reconstructed report goes out, its own answer included, that its parts are all readable signatures held, and that it keeps network, number and data and has no signer id |
| BlsCompletion.HeldAfter | examples/bls/node_internalnet.go:36-49 | inside the window a new report leaves held all that was, the report, and the answer if the leader holds the number and the node did not |
| BlsCompletion.AnswerRecoversIff | examples/bls/node_internalnet.go:38-60 | a step in which the node answers reconstructs exactly if more than a quorum of readable signatures come together with its own |
| BlsCompletion.AnswerCompletes | examples/bls/node_internalnet.go:38-60 | reports of 3, 4 and then the leader 2 make node 1 of four answer and broadcast a report of all four parts at once |
| BlsProgram.Node.constructor | examples/bls/node.go:29-43 | a new node has an empty outer buffer of 128 slots and no internal ones |
| BlsProgram.Node.GetOrCreate | examples/bls/node_internalnet.go:31-35 | a missing buffer is created empty and stored, an existing one returned; what is held for any network does not change |
| BlsProgram.Node.HandleIn | examples/bls/node_internalnet.go:36-66 | handling in place changes one network's buffer by one step, and no other buffer, as none share memory |
| BlsProgram.Node.ConsumeInternalNet | examples/bls/node_internalnet.go:27-70 | only the report's own network's buffer changes, by one handling step, and nothing without a share |
| BlsProgram.Node.Consume | examples/bls/node.go:71-86 | reports with a signer id go to the internal network, others to the outer buffer, undecodable ones nowhere |
| BlsProgram.Node.RecoveredIsOuter | examples/bls/node.go:71-86 | a reconstructed report goes to the outer buffer of whoever consumes it |
| BlsProgram.Node.Validate | examples/bls/node.go:88-113 | partial signatures: accepted iff valid and new, rejected iff invalid for a network this node signs, otherwise ignored; reconstructed ones: rejected unless they verify, else the sequence rule |
| BlsProgram.Node.ValidateInternalNet | examples/bls/node_internalnet.go:12-25 | accepted iff a known signer's valid signature that is not held yet; rejected iff invalid; otherwise ignored |
| BlsProgram.Node.TriggerReport | examples/bls/node.go:132-147 | only the leader of the number signs and broadcasts; its report goes to the outer buffer alone |
| BlsSigning.ValidatesOwn | examples/bls/share.go:16-35 | a report validates exactly if it is what the share of the signer it names would sign |
| BlsSigning.HandleIsAdds | examples/bls/node_internalnet.go:36-45 | a handled report changes the buffer by one Add, and a second one of the own answer if and only if the first succeeded and the number was processable |
| BlsSigning.HandleKeeps | examples/bls/node_internalnet.go:27-49 | handling keeps all reports inside the window and adds at most the sender and this node to the holders of the number |
| BlsSigning.HandleSigns | examples/bls/node_internalnet.go:36-49 | inside the window, exactly when a node signs, in terms of who held the number before |
| BlsSigning.RunSignsOnce | examples/bls/node_internalnet.go:131-143 | in every windowed run: leader held implies own report held, and no number is signed twice |
| BlsSigning.RunFollowsLeader | examples/bls/node_internalnet.go:38-44 | every own signature answers a delivered report of the number's leader, on the leader's data, never as leader |
| BlsSigning.SignsOnceAfterLeader | examples/bls/node_internalnet.go:131-143 | the discipline of a signer, for every windowed run: each number signed at most once, after its leader and on its data |
| BlsSigning.NeverAnswersAsLeader | examples/bls/node_internalnet.go:132-143 | in every run, windowed or not, no node answers under a number that it leads |
| BlsSigning.MineAnswersInputs | examples/bls/node_internalnet.go:38-44 | in every run, windowed or not, each own signature answers a delivered report, on its data |
| BlsSigning.SignsExactly | examples/bls/node_internalnet.go:27-49 | in every windowed run of any reports, a node has signed a number it does not lead if and only if it was given the leader's report, and no report under its own id before |
| BlsSigning.SignsExactlyOnLeader | examples/bls/node_internalnet.go:27-49 | hence, if own reports come back only for numbers the node signed or leads, if and only if it was given the leader's report |
| BlsSigning.HandleRecovers | examples/bls/node_internalnet.go:50-60 | a reconstructed report carries the signatures held for its number, strictly more than the quorum |
| BlsSigning.ReconstructsAtMostF | examples/bls/node_internalnet.go:50-66 | a node reconstructs each number at most f times in any windowed run of reports by known signers, so never for n <= 3 |
| BlsSigning.RecoveredIsKnown | examples/bls/node_internalnet.go:84-105 | in every run, windowed or not, each part of a reconstructed report is the signature of a report delivered or issued under that signer and number |
| BlsResigning.RunIsReplay | examples/bls/node_internalnet.go:36-41 | the node's buffer is the ring of everything delivered and answered |
| BlsResigning.ResignsIff | examples/bls/node_internalnet.go:36-41 | exactly when a number signed before is signed again: the report is new and not too old for its sender, the own report was pushed out and the leader's was not |
| BlsResigning.SignsTwice | examples/bls/node_internalnet.go:36-41 | two leaders' reports competing for a slot and a late third report make a node sign one number twice |
| BlsResigning.SignsTwiceAmongFive | examples/bls/reportbuf.go:10-10 | a concrete such run with numbers 1 and 129 among five signers |
| BlsResigning.SignsOnceWithoutWindow | examples/bls/share.go:43-45 | if the number of signers divides 128, and own reports come back only for numbers signed or led, no number is ever signed twice, with no window assumed |
| BlsResigning.DisciplinedWithoutWindow | examples/bls/share.go:43-45 | under the same conditions the whole discipline of a signer holds: once per number, after the leader, on the leader's data |
| BlsResigning.SignsTwiceAfterOwn | examples/bls/node_internalnet.go:36-41 | a leader's report, any report under the node's own id that competes for the slot and a late third report make the node sign the first number twice |
| BlsResigning.AlwaysSignsOnceIff | examples/bls/share.go:43-45 | for signers numbered 1..n, all runs of valid reports in which own ones come back only for numbers signed or led sign each number at most once if and only if n divides 128 |
| BlsResigning.SignsOnceUnguardedIff | examples/bls/node_internalnet.go:12-25 | without that condition on own reports, which the source does not check: if and only if n <= 2 |
| BlsResigning.ResignNeedsOwn | examples/bls/node_internalnet.go:36-41 | if n divides 128, a number is signed again only after a report with a larger number of its slot was given under the own id, which the node never signed |
| BlsNetwork.InvHolds | examples/bls/node_internalnet.go:27-70 | in every run deliveries are valid broadcast messages, leaders alone were triggered, and an honest signature circulates only if its owner made it or a quorum stands behind the same data |
| BlsNetwork.LeadersTakeTurns | examples/bls/share.go:43-45 | the leader of the next number is the next signer, and the first one after the last |
| BlsNetwork.SaidIff | examples/bls/node_internalnet.go:43-60 | exactly what circulates after a run: triggered, answered with success, reconstructed or injected reports |
| BlsNetwork.ReconstructedIsSaid | examples/bls/node_internalnet.go:54-60 | every report that an honest signer reconstructed circulates |
| BlsNetwork.HowSigned | examples/bls/node.go:132-147 | an honest leader signs its number when triggered, everyone else only when answering |
| BlsNetwork.SignsOneData | examples/bls/node_internalnet.go:38-44 | a disciplined honest signer that was not triggered twice signs one data per number |
| BlsNetwork.Agreement | examples/bls/node_internalnet.go:27-70 | in every run inside the window no two different data gather a quorum under one number while fewer than n - 2f signers are Byzantine or led it twice |
| BlsNetwork.DisciplineAgrees | examples/bls/node_internalnet.go:27-70 | the same in every reachable state of disciplined signers, inside the window or not |
| BlsNetwork.QuorumsAgree | examples/bls/share.go:47-51 | two quorums behind one number agree if all honest signers outside a set of fewer than n - 2f signed one data under it |
| BlsNetwork.LeaderSignsTwoData | examples/bls/node.go:132-147 | an honest leader signs whatever it is triggered with, so a doubly triggered signer alone in its network backs two data |
| BlsGuarantees.SignatureAgreement | examples/bls/share.go:16-19 | the same for valid signatures in circulation, made or derived, on data that name one number, when leaders' reports carry the number their data name; inside the window, or if n divides 128 and own reports come back only for numbers signed or led |
| BlsGuarantees.SignsWhatTheLeaderStarted | examples/bls/node.go:132-147 | in every such run with fewer than a quorum of Byzantine signers, what an honest signer signs under a number with an honest leader, that leader was triggered with |
| BlsGuarantees.HonestSignWhatWasStarted | examples/bls/node.go:132-147 | without Byzantine signers the same holds with any delays, if all delivered reports name their number |
| BlsGuarantees.AuthenticUnlessDerived | examples/bls/share.go:21-35 | if all reports name their number, own reports come back to a node only for numbers it signed or leads, unless a quorum stands behind the data of one of them |
| BlsGuarantees.ShelterDisciplines | examples/bls/node_internalnet.go:27-49 | a signer inside the window is disciplined, and so is one of a network dividing 128 to which own reports come back only for numbers signed or led |
| BlsGuarantees.FollowersSignExactly | examples/bls/node_internalnet.go:27-49 | in every run, with any data, a windowed honest follower has signed a number if and only if it was given the leader's report, and no report under its own id before |
| BlsGuarantees.CascadeIsBounded | examples/bls/node_internalnet.go:36-66 | in every run inside the window one number causes fewer than n answers in all and at most f reconstructions per honest signer |
| BlsLimits.SplitRun | examples/bls/node_internalnet.go:27-49 | with n - 2f or more Byzantine signers including the leader, for every n, a run inside the window gives two data a quorum each |
| BlsLimits.AgreementIff | examples/bls/share.go:47-51 | for every n and b: all runs with b Byzantine signers agree if and only if b < n - 2f |
| BlsLimits.UnboundRun | examples/bls/share.go:21-35 | for every n >= 2, without the binding of data to numbers a single Byzantine leader gets valid quorum signatures on any two data |
| BlsLimits.ForgedStart | examples/bls/share.go:21-35 | with a quorum of Byzantine signers, any honest signer can be made to sign data in an honest leader's name that nobody was triggered with |
| BlsLimits.SilencedRun | examples/bls/node_internalnet.go:36-41 | for n >= 4, without any Byzantine signer, a follower whose part is derived and delivered to it first is given the leader's report and never signs |
| BlsDelays.FewResignHolds | examples/bls/node_internalnet.go:36-41 | if n divides 128, in every run with any delays and derived signatures either no honest signer answers a number twice, or the honest ones of some quorum never do |
| BlsDelays.DividingAgrees | examples/bls/node_internalnet.go:27-70 | so with fewer than n - 3f Byzantine signers no two different data gather a quorum under one number, however late deliveries are |
| BlsDelays.HonestAgrees | examples/bls/node.go:132-147 | without Byzantine signers this holds for every n |
| BlsDelayRuns.LateRun | examples/bls/node_internalnet.go:36-41 | for n >= 4 not dividing 128, a delayed run with one Byzantine signer gives two data a quorum each |
| BlsDelayRuns.DuelRun | examples/bls/node_internalnet.go:36-41 | two followers told different data by a Byzantine leader, each leading a later number of the slot, can be made to take each other's late reports; for n = 3 this gives two data a quorum each (TrioRun) |
| BlsDelayRuns.PushRun | examples/bls/node_internalnet.go:12-25 | for n >= 4 dividing 128, n - 3f Byzantine signers derive own reports for f victims and give two data a quorum each |
| BlsDelayRuns.AgreesAnyDelayIff | examples/bls/reportbuf.go:9-10 | for every n and b, when all data name their number, agreement survives any delays with up to b Byzantine signers if and only if b = 0, or n divides 128 and b < n - 3f |
| BlsDelayRuns.SignaturesAgreeAnyDelay | examples/bls/share.go:16-19 | under that condition no two data naming one number each have valid signatures of a quorum in circulation, made or derived |
| BlsReconstruction.PartsAreOwn | examples/bls/node_internalnet.go:84-105 | in every run, with any Byzantine members and delays, a reconstructed report combines more than a quorum of signatures, each made by the member it stands for |
| BlsReconstruction.ReconstructedVerifiesIff | examples/bls/node_internalnet.go:50-82 | in every such run a reconstructed report verifies under the network key if and only if the weighted errors of the parts on other data cancel |
| BlsReconstruction.CoveredReportsVerify | examples/bls/node_internalnet.go:72-82 | in every such run a reconstructed report whose parts all cover its data verifies, in whatever order they are combined |
| BlsReconstruction.PartsAgree | examples/bls/node_internalnet.go:84-105 | without Byzantine members every part of a reconstructed report covers the report's data |
| BlsReconstruction.HonestReportsVerify | examples/bls/node_internalnet.go:50-82 | hence without Byzantine members, with each number started once and all delivered data naming their number, every reconstructed report verifies, with any delays |
| BlsReconstruction.QuorumDerives | examples/bls/reconstruct.go:12-38 | for keys dealt with the quorum as threshold, the parts of a quorum on some data give the part of every other signer on them |
| BlsMixing.KeepsAndRecovers | examples/bls/node_internalnet.go:50-60 | a node that has answered keeps each further signer's report and, above the quorum, reconstructs from all it holds |
| BlsMixing.MixesData | examples/bls/node_internalnet.go:84-105 | three valid reports, one on other data, make a node of a four-signer network broadcast a report built from signatures on both |
| BlsMixing.MixedReportVerifiesIff | examples/bls/node_internalnet.go:72-82 | with one part on other data, a reconstructed report verifies if and only if that part equals its signer's part on the report's data |
| BlsMixing.MixedRun | examples/bls/node_internalnet.go:84-105 | a network run with one Byzantine follower, and an honest leader that started its number once, in which an honest signer broadcasts a report built from signatures on both data |
| BlsMixing.ReplayRun | examples/bls/share.go:16-19 | the same without any Byzantine signer, by saying an old signature again under a number that its data do not name |
| BlsMixing.MixedRunVerifiesIff | examples/bls/node_internalnet.go:50-82 | what either run broadcasts verifies if and only if the dissenting signature equals one on the report's data, so in general it does not |
| Router.InvHolds | core/router.go:60-129 | in every run: acceptance order, conservation, workers bounded, each message handled at most once, and waiters get only their own handler's result |
| Router.OrderedStep | core/router.go:97-107 | the queue keeps its capacity, and what was dequeued followed by what is queued is all accepted messages in order |
| Router.ConservedStep | core/router.go:69-95 | each dequeued message stays in exactly one of held, handled, replied to and finished |
| Router.TokensStep | core/router.go:86-95 | running handlers never exceed the worker capacity |
| Router.HandledStep | core/router.go:86-95 | no message is handled twice |
| Router.LoopsStep | core/router.go:60-84 | the loop counters balance, and taking a marker neither dequeues nor drops a message |
| RouterTrace.AccountsHold | core/router.go:60-107 | counted in the actions of every run: live loops plus cancellations plus markers taken are the Start calls, queued and taken markers are those pushed, accepted messages are the offers, dequeued ones the other takes, handled ones the dispatches |
| RouterTrace.LoopsLive | core/router.go:69-84 | a loop is live exactly if it was started and has neither been cancelled nor taken a marker since |
| RouterTrace.MessagesRecorded | core/router.go:86-129 | a caller waits exactly from the acceptance of its waiting offer, times out exactly if its context ended, got a value exactly if the callback met it; results are exactly those handlers left |
| RouterTrace.MarkerRun | core/router.go:60-84 | a run in which a marker ends the only loop, the message behind it stays queued, and its caller gives up |
| Router.ResultsStep | core/router.go:109-129 | a value returned to a waiter is the one left by the one execution of its own message |
| Router.ExactlyOnePlace | core/router.go:69-107 | in every run an accepted message is queued or in exactly one later place, never both |
| Rendezvous.ConvertResult | api/grpc/val_router.go:153-164 | only ACCEPT becomes Accept and only REJECT becomes Reject |
| Rendezvous.InvHolds | api/grpc/val_router.go:114-144 | in every interleaving a non-nil entry is the channel of a PushWait active for that id, and channels are never shared |
| Rendezvous.QuietTableIsNil | api/grpc/val_router.go:114-122 | when no PushWait is active every entry is nil |
| Rendezvous.RepliesDoNotCross | api/grpc/val_router.go:124-134 | a reply reaches only a PushWait for the id it names, duplicates included |
| Rendezvous.AcceptIsExplained | api/grpc/val_router.go:35-56 | PushWait returns Accept only if an ACCEPT for its own id was resolved while it was waiting |
| RendezvousTrace.VerdictExact | api/grpc/val_router.go:35-56 | in every run PushWait gives Accept or Reject exactly if a client's ACCEPT or REJECT for its id met it, and Ignore otherwise |
| RendezvousTrace.GivesUpWithIgnore | api/grpc/val_router.go:40-55 | one that finds the client's queue full, or whose context ends, meets no reply and gives Ignore |
| RendezvousTrace.WaitingWasForwarded | api/grpc/val_router.go:40-48 | whoever waits or met a reply was put into the client's queue |
| RendezvousTrace.OutboxHolds | api/grpc/val_router.go:59-76 | the stream takes the forwarded ids in order, and the queue holds the rest within its size |
| RendezvousTrace.EntriesHold | api/grpc/val_router.go:114-144 | the table holds for an id the channel of the last call that began with it, or nil if one for that id has left since, duplicates included |
| RendezvousTrace.ResolvesHold | api/grpc/val_router.go:124-134 | a reply can be sent only on the channel that the table held for its id at the lookup |
| RendezvousTrace.ActiveIff | api/grpc/val_router.go:35-39 | calls are active from their begin until they leave, and have then returned |
| RendezvousTrace.PendingIff | api/grpc/val_router.go:124-134 | a reply is pending from its lookup until it is sent or dropped, and then gone for good |
| Rendezvous.MetWasPushed | api/grpc/val_router.go:124-134 | whoever a reply met is a PushWait that is still active or has returned |
| ValidationFlow.InvHolds | core/router.go:86-129 | in every joint run PushWait runs once per message, for that message's id, and the router's result is what it returned |
| ValidationFlow.FailClosed | core/pubsub.go:257-270 | a remote message that meets PushWait is accepted only if a client's ACCEPT for its id met its PushWait while waiting |
| ValidationFlow.AcceptIff | core/pubsub.go:257-270 | for every accepted remote message of every run: a client's ACCEPT for its id met its PushWait if and only if the message met PushWait |
| ValidationVerdict.OwnIsAccepted | core/pubsub.go:258-261 | own messages are accepted whatever the router gave |
| ValidationVerdict.VerdictIsExact | core/pubsub.go:257-270 | for every remote message that meets PushWait, in every run: Accept or Reject exactly if HandleWait gave its value and a client's ACCEPT or REJECT for that id met its PushWait, and Ignore in every other case |
| ValidationVerdict.ErrorIff | core/router.go:109-129 | HandleWait gives an error exactly if the queue was full or the caller's context ended first, and a value exactly if the callback met it |
| ValidationVerdict.TrackedHolds | core/router.go:60-67 | messages are handled by PushWait exactly if their handler began after it was installed, wherever they were queued before |
| ValidationVerdict.AcceptLost | core/router.go:19-27 | a run in which a client's ACCEPT met PushWait and the message is still ignored, its caller's context having ended first |
| ValidationFlow.OpenBeforeInstall | cmd/pmq/main.go:67-70 | before PushWait is installed a message can be accepted without any reply |
| ValidationFlow.ReplyDecides | cmd/pmq/main.go:83-89 | with PushWait installed every reply, ACCEPT included, can become the verdict |
| Keyring.PutUint32 | examples/don/ocr_evm_keyring.go:22-22 | the four bytes are those of the number, highest first, and no other byte changes |
| Keyring.RawReportContext | examples/don/ocr_evm_keyring.go:19-26 | three blocks of 32 bytes that read back as the context: digest, 27 zeros with the epoch highest byte first at 27 to 30 and the round at 31, and extra hash |
| Keyring.ParseIsInjective | examples/don/ocr_evm_keyring.go:19-26 | no other blocks read back as that context |
| Keyring.ReportToSigData | examples/don/ocr_evm_keyring.go:50-57 | the digest is the hash of report hash and context blocks, laid out by index |
| Keyring.PreimageIsLaidOut | examples/don/ocr_evm_keyring.go:50-57 | 128 bytes read back as report hash and context exactly if they are laid out so |
| Keyring.PreimageUnique | examples/don/ocr_evm_keyring.go:50-57 | two concatenations are equal if and only if report hash and whole context are |
| Keyring.DigestBinds | examples/don/ocr_evm_keyring.go:50-57 | equal digests mean equal context and report, or a collision of the hash on the reports or on the concatenations |

## Left out

- The libp2p host, DHT, gossipsub mesh, scoring, gRPC transport, command line and configuration: I/O and libraries.
- Topic join, leave and subscribe bookkeeping: mostly library handles, and what remains would add only easy members.
- BLS, secp256k1, Keccak and JSON are idealised: field arithmetic or symbolic signatures, an arbitrary hash to 32 bytes, messages that decode or do not.
- ThresholdKeys.ReconstructSigs: recovery inside the BLS library is taken to be Lagrange interpolation at zero that refuses empty, zero and repeated ids.
- ThresholdKeys.GenShares: needs a threshold of at least 1, as the source indexes the first coefficient; random coefficients are a parameter, and ids never fail to parse.
- BlsNode.HandleReport: one report is handled atomically, including the nested goroutine that reconstructs; the source spawns goroutines (examples/bls/node_internalnet.go:30-52), and signing once does not survive their interleaving or the race of creating a buffer.
- BlsNode.CollectSignatures: signer ids are numbers rather than decimal strings, so parsing them never fails, and an error while preparing a report is not modelled.
- BlsProgram.Node.TriggerReport: the broadcast is the returned report; its failure, after which nothing more happens, is not modelled.
- BlsReconstruction.HonestReportsVerify: assumes that delivered data name their number, which the source does not check; BlsMixing.ReplayRun shows it is needed, and CoveredReportsVerify does without.
- BlsGuarantees.SignatureAgreement: assumes that data name their number, which the source does not check; BlsLimits.UnboundRun shows it is needed.
- BlsGuarantees.ShelterDisciplines: without a window it assumes that own reports come back only for numbers signed or led, which the source does not check; BlsDelayRuns.AgreesAnyDelayIff is the result without.
- BlsResigning.SignsOnceWithoutWindow: makes the same assumption; BlsResigning.SignsOnceUnguardedIff is the result without.
- BlsResigning.DisciplinedWithoutWindow: makes the same assumption, and fails without it by BlsDelayRuns.PushRun.
- BlsResigning.AlwaysSignsOnceIff: makes the same assumption; BlsResigning.SignsOnceUnguardedIff is the result without.
- BlsSigning.SignsExactlyOnLeader: makes the same assumption; BlsSigning.SignsExactly is the result without.
- BlsNetwork.Agreement: stated for runs inside the window, because outside it fewer Byzantine signers can be tolerated (BlsDelayRuns.AgreesAnyDelayIff).
- BlsGuarantees.CascadeIsBounded: counts answers and reconstructions, not failed broadcasts.
- Ring.GetRefinesHistory: GetAll, whose returned pointers share one variable under Go's older loop semantics, is not part of this model.
- Router.InvHolds: safety only; callbacks are non-blocking sends, so a result may be lost and delivery is not claimed. The router and the rendezvous table are transition systems on values, as interleaving is the point; the direct hand-off of a queue of size 0 is not modelled.
- ValidationFlow.FailClosed: installing PushWait is one step that may happen at any time; that RefreshHandler first waits for running handlers only removes runs. The handler used before may give any verdict.
- Producing DON reports (examples/don/report.go:20-27): each signature covers text that includes the earlier ones, so no round trip through the verifier is available.
- DonVerifier.Process: the raw bytes passed through unchanged are left out.
