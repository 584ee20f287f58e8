# NodeChain deployment assurance, in Dafny

A model of the parts of NodeChain that decide whether a deployment, a rollback, a piece of
evidence or an incident is to be trusted, with proofs of what those decisions guarantee.
`dafny verify dfyconfig.toml` checks the whole project.

## What is modelled

**The Proxmox API adapter.** A remote is an arbitrary stream of replies, a clock an arbitrary
stream of readings; the adapter is an object whose methods send requests on a session that
records them (`Wire`, `Adapter`). Every method is proved to send exactly the requests, and to
return exactly the receipt, that a specification function gives (`TaskPolling`, `Lifecycle`,
`RollbackGates`, `ApplyRollback`), and the theorems are about those functions, over every
remote (`LifecycleTheorems`, `RollbackTheorems`): what any run of start, stop or reboot may
send, when exactly it is accepted, when exactly a rollback may write, and what apply with its
automatic rollback amounts to. The theorems tell this from the fields of policy and history and
from the JSON of the replies, in predicates that name none of the functions that read or decide
(`Readings` and the theorem modules), so that each is an independent account of both.
A JSON body may have any shape; where the Python code would raise on it, so does the model.

**Drift and remediation.** The two passes of `check_drift` over the same fields, evidence
strengths, strict escalation and policy lifecycle, told by the field names of release and
observation (`Drift`), the decision machine that may act on the outcome (`Remediation`), and
both together with the adapter that carries a decision out (`GovernedRollback`).

**Text for and from models.** The bracket-closing repair of truncated JSON, judged against
nesting in the sense of sections 4, 5 and 7 of RFC 8259 (`JsonRepair`), and truncation to a
context window (`Truncation`).

**Registries.** Two registries with audit logs, as objects, with the replay of the log as the
independent account of their state (`CertifiedRegistry`, `EvalSuiteRegistry`).

**Evidence.** Audit bundles, attestations and the digest binding of receipts, certifications,
policies and registry entries: what building and verifying have to do with each other
(`AuditBundle`, `Attestation`, `ReceiptDigests`, `DeploymentReceipt`, `RegistrySnapshot`).
SHA-256 is an arbitrary function; where a result needs that two particular contents do not
collide, it says so. RSASSA-PSS (section 8.1 of RFC 8017) is an oracle that answers yes or no.

**Dashboard.** Nearest-rank percentiles, the ranked and binned adapter table and the
classification of memory exposures (`LatencyPercentiles`, `AdapterRanking`, `MemoryReads`).

**Incident chain.** Five nodes, each one's output being the next one's input, and what the
whole chain can ever report (`IncidentPipeline`).

## Where the code falls short of what it says

The model follows the code. Where that does not meet the intent, a lemma says exactly when it
does or that it never does; where only some inputs fail, another gives one that does.

- `timed_out` stays false when the clock rather than the number of polls ends the loop
  (`PollingIsBounded`, `ClockEndsPollingUnnoticed`).
- A refusal by the assurance chain claims verified provenance even when provenance was not
  checked (`ChainRefusalClaimsProvenance`, `UncheckedProvenanceIsClaimed`).
- The receipt of a rollback that wrote says verified and known-good even when nothing was
  checked; only its statuses tell (`WrittenReceiptsAreVerified`, `NothingCheckedIsVerified`).
- Two checks of prior documents raise instead of refusing, when the value that differs cannot
  be sliced for the message (`ProvenanceIff` and `ANumberForADigestRaises`, `ChainIff` and
  `ANumberForABundleRaises`).
- Receipts made by `create_deployment_receipt` lose how the deployment ended, so none of them
  can serve as the prior receipt of a rollback (`CreatedReceiptsNeverVouch`).
- A required release-history snapshot is not asked for when its path is blank
  (`SnapshotRequirementNeedsPath`, `InvalidSnapshotIsNoObstacle`).
- A drift check that could not be carried out reports no drift, and remediation then does
  nothing, as it does for a clean target (`CheckAndRemediate`).
- Remediation reports "rolled_back" for any accepted start, stop or reboot as well; the report
  is true exactly for the other actions (`RolledBackReportedIff`, `ReportIsTrueIff`,
  `NoopIsReportedAsRollback`).  The release it names need not be the one that the adapter's
  receipt names (`ReceiptsAgreeIff`, `AnotherReleaseIsRolledBackTo`).
- Evidence strength "verified" is never assigned (`VerifiedEvidenceIsUnattainable`), and a
  misspelt minimum strength asks for nothing (`InsufficientEvidenceIff`,
  `MisspeltStrengthAsksNothing`).
- The repair closes all brackets before all braces, which fails for arrays of objects
  (`ClosableIff`, `ArrayOfObjectsIsNotClosed`).
- A truncated prompt fits the window only if output and margin leave room at all
  (`TruncateForContext`, `SmallWindowsOverflow`).
- A revoked registry entry can be deprecated afterwards (`RevocationLasts`,
  `RevokedThenDeprecated`), and neither deprecation nor revocation renews the entry's digest
  (`EntryDigestHoldsIff`).
- A generated audit bundle never passes its own integrity check, because the summary is
  rewritten after the manifest (`GeneratedBundleFindings`).
- An explicit expectation takes the place of a verifier profile's, so that one option can
  loosen verification (`TighteningIff`, `AnOptionLoosens`); and strict mode takes an
  attestation's word that deployment is allowed (`StrictTrustsTheClaim`,
  `UnknownVerdictIsAccepted`).
- The digest of a gate or deployment receipt is not checked when it is missing
  (`MissingDigest`).
- One unreadable exposure payload hides all later ones (`UnreadableHidesTheRest`).
- When nothing was detected the incident chain reports "denied", never "no_incident"
  (`RunPipeline`); "medium" severity, automatic rollback and recovery are unreachable in it.

Two comments of the adapter table disagree on whether adapters beyond the top twenty are
binned. They are, and nothing is lost (`CountersAreConserved`): the metrics emitter refuses
negative counts (src/nodechain/runtime/recovery_metrics.py:139-143), so the negative bin that
`ConservationIff` singles out would have to be written by something else.

## Model

| member | source | states |
|---|---|---|
| Wire.Session.Send | src/nodechain/cli/deployment_adapter.py:1917-1980 | the k-th request sent gets the k-th reply of an arbitrary stream, and is recorded |
| TaskPolling.PollTask | src/nodechain/cli/deployment_adapter.py:1874-1915 | the loop sends exactly the requests of `Poll` and returns its report, for every remote and clock; it terminates on the polls left |
| TaskPolling.PollingIsBounded | src/nodechain/cli/deployment_adapter.py:1874-1899 | at most `task_max_polls` requests, stopping at the first reply that says "stopped"; status and exit status reported are those of the last 200 reply; a run that saw no stop used up its polls or its time, and `timed_out` is false exactly when it was the time |
| TaskPolling.LastReadingIs | src/nodechain/cli/deployment_adapter.py:1874-1899 | the last reading is that of the last reply that was a 200, every reply after it being another code |
| TaskPolling.ClockEndsPollingUnnoticed | src/nodechain/cli/deployment_adapter.py:1874-1899 | a slow remote whose two polls take up the time: still running, 58 polls left, and `timed_out` false |
| TaskPolling.VerdictIsStopped | src/nodechain/cli/deployment_adapter.py:3794-3804 | the verdict on a remote task is "its last poll saw it stopped, with exit status OK or blank where success is required"; the later `timed_out` override never changes it |
| Readings.ReadIff | src/nodechain/cli/deployment_adapter.py:1885-1896 | a 200 reply is read as its `data.status`, "unknown" if missing, and its `data.exitstatus`, blank if missing; any other code as nothing |
| Readings.StoppedIff | src/nodechain/cli/deployment_adapter.py:1891-1899 | a poll counts as done if and only if the last reply says "stopped", with exit status OK or blank where that is required |
| Readings.StatusFieldIff | src/nodechain/cli/deployment_adapter.py:3602-3607 | the status of a target is the `status` of the reply's data, "unknown" when there is none; the reading raises exactly on a 200 whose body, or non-blank data, is no object |
| Readings.NamesTaskIff | src/nodechain/cli/deployment_adapter.py:3762-3782 | the task id of a POST is its data, or the `upid` of its data, or the text of any other data; blank ones name no task |
| Readings.BootEvidenceIff | src/nodechain/cli/deployment_adapter.py:1982-2024 | from the JSON of the two replies: the uptime is that of the status reply, the boot id the decoded non-blank `content` of the agent reply where the agent is asked and "" otherwise, and the id counts as available if and only if it is not empty |
| Adapter.ProxmoxApiAdapter.CaptureBootEvidence | src/nodechain/cli/deployment_adapter.py:1982-2024 | the method sends the requests of `CaptureBoot` and returns its evidence; what that evidence is in terms of the replies is `Readings.BootEvidenceIff` |
| Adapter.ProxmoxApiAdapter.Judge | src/nodechain/cli/deployment_adapter.py:3794-3909 | the boot checks and the final conjunction, taken step by step, come to `Verdict` |
| Adapter.ProxmoxApiAdapter.FollowTask | src/nodechain/cli/deployment_adapter.py:3783-3952 | polling, the state read back and the boot evidence after it: exactly these requests, in this order, and the receipt they lead to |
| Adapter.ProxmoxApiAdapter.Mutate | src/nodechain/cli/deployment_adapter.py:3757-3952 | boot evidence, one POST, then the follow-up: the whole trace and result of a run that mutates |
| Adapter.ProxmoxApiAdapter.DeployLifecycle | src/nodechain/cli/deployment_adapter.py:3600-3952 | `deploy` for start, stop and reboot sends the requests of `LifecycleRun` and returns its receipt, on every remote |
| LifecycleTheorems.TraceSafety | src/nodechain/cli/deployment_adapter.py:3600-3804 | over every remote, by what the replies say: the status GET comes first; nothing else is sent if and only if the status is garbled, fails the pre-state gate, is a no-op that is refused or is one that is permitted; at most one write, the POST of this action; polls only of the id that POST was answered with, at most `task_max_polls`, none after "stopped" |
| LifecycleTheorems.AcceptedIff | src/nodechain/cli/deployment_adapter.py:3600-3952 | by what the replies say: accepted if and only if the status told first passes the pre-state gate and either a no-op is permitted (nothing but the status was requested), or the trace holds a POST answered 200 with a non-empty id, whose last poll saw it stopped (exit OK or blank where required), after which the state read back matches and, for a reboot, a boot id told before is followed by a different non-empty one, an uptime reset standing in only where none was told and that is allowed |
| LifecycleTheorems.SettledReceipt | src/nodechain/cli/deployment_adapter.py:3611-3754 | where the status told settles the matter: the receipt is a permitted no-op or a refusal, shows that status, and claims nothing of a task or a boot |
| LifecycleTheorems.UnnamedTaskReceipt | src/nodechain/cli/deployment_adapter.py:3757-3782 | a run that ends with its POST: the answer named no task, and the receipt is a rejection that shows the first status twice and claims nothing |
| LifecycleTheorems.TaskReceiptTells | src/nodechain/cli/deployment_adapter.py:3783-3952 | the receipt of a mutation shows the states told before and after, the id, the number of polls, whether the task was seen done, and for a reboot the four flags that follow from uptime and boot id before and after |
| LifecycleTheorems.AcceptedRebootChangedIdentity | src/nodechain/cli/deployment_adapter.py:3836-3909 | an accepted reboot under `require_boot_id_change` always records `boot_identity_changed` |
| RollbackGates.ProvenanceIff | src/nodechain/cli/deployment_adapter.py:3149-3264 | the early returns accept exactly the prior receipts that are present, match the pinned digest, are applied, activation-verified and name this artifact if they name one; they raise exactly for a receipt that fails in the name alone, by a value that cannot be sliced |
| RollbackGates.ProvenanceStatusIff | src/nodechain/cli/deployment_adapter.py:3149-3264 | which of the refusals a prior receipt gets, by its own fields, in the order of the checks |
| RollbackGates.ANumberForADigestRaises | src/nodechain/cli/deployment_adapter.py:3238-3254 | a prior receipt in order but for naming a number, on which the check raises |
| RollbackGates.ChainIff | src/nodechain/cli/deployment_adapter.py:3266-3480 | the chain is verified exactly when provenance is and, where required, every attestation, signature, profile, bundle and gate condition holds; it raises exactly when the prior receipt is not an object, or everything before the bundle digest is in order and that digest differs and cannot be sliced |
| RollbackGates.ReceiptStatusTells | src/nodechain/cli/deployment_adapter.py:3266-3353 | the status of the chain tells the first thing found wrong: not checked, provenance failed, another kind of receipt, or unsigned, each exactly then |
| RollbackGates.DocumentStatusTells | src/nodechain/cli/deployment_adapter.py:3355-3480 | and then of the documents: missing or non-compliant attestation, missing signature or trust, differing bundle, invalid or denying gate receipt, verified |
| RollbackGates.ANumberForABundleRaises | src/nodechain/cli/deployment_adapter.py:3435-3449 | an attestation whose bundle digest is a number, on which the chain raises |
| RollbackGates.CheckedReceiptIsObject | src/nodechain/cli/deployment_adapter.py:3191-3197 | with the receipt check on, the chain never sees a prior receipt that is not an object |
| RollbackTheorems.GateIff | src/nodechain/cli/deployment_adapter.py:2950-3041 | a rollback passes its gates exactly when a target digest is set and the required receipt and chain conditions hold |
| ApplyRollback.WriteSucceededIff | src/nodechain/cli/deployment_adapter.py:2620-2640 | by the replies: a write counts as a success exactly when it was answered 200 and the Proxmox task it named, if any, was last seen stopped with exit status "OK"; only polls follow it |
| ApplyRollback.UpidTextIff | src/nodechain/cli/deployment_adapter.py:3053-3060 | a write names a task exactly by a 200 reply whose data is a text that starts with "UPID:"; only a 200 body that is no object raises |
| Adapter.ProxmoxApiAdapter.Write | src/nodechain/cli/deployment_adapter.py:3043-3065 | a PUT or POST and the polling of what it started: exactly these requests, and success as above |
| Adapter.ProxmoxApiAdapter.ResolveRelease | src/nodechain/cli/deployment_adapter.py:2756-2948 | the method returns the resolution `Resolve` gives and leaves the manifest with its policy; when that refuses and what it adopts is `ResolutionIff` |
| RollbackTheorems.ResolutionIff | src/nodechain/cli/deployment_adapter.py:2756-2948 | resolution refuses if and only if retention is required and the history lacks integrity, a required snapshot with a path is invalid, the found release fails required retention, or none is found while receipts are checked, and for the first of these; the policy it leaves names the found digest unless blank, and the stored receipt only where none is configured |
| Adapter.ProxmoxApiAdapter.HandleRollback | src/nodechain/cli/deployment_adapter.py:2700-3147 | `_handle_rollback_artifact` sends the requests of `RollbackRun`, returns its receipt and leaves the manifest as resolution left it |
| Adapter.ProxmoxApiAdapter.HandleApply | src/nodechain/cli/deployment_adapter.py:2498-2698 | `_handle_apply_artifact` sends the requests of `ApplyRun` and returns its receipt |
| Adapter.ProxmoxApiAdapter.TargetIsAllowed | src/nodechain/cli/deployment_adapter.py:2592-2597 | the loop over the allowed targets finds the final path among them or below one of them |
| ApplyRollback.StripSlashesIs | src/nodechain/cli/deployment_adapter.py:2593-2596 | what remains of a path without its trailing slashes: a stem that does not end in one, followed by slashes only |
| ApplyRollback.TargetAllowedIff | src/nodechain/cli/deployment_adapter.py:2592-2597 | a path is allowed if and only if no targets are listed, or it is blank, equals one of them or lies below the stem of one, where a stem is what precedes the slashes at its end |
| Adapter.ProxmoxApiAdapter.DeployApply | src/nodechain/cli/deployment_adapter.py:3985-4034 | apply followed by the automatic rollback: the trace and receipt of `ApplyDeployRun` |
| RollbackTheorems.PutIssuedIff | src/nodechain/cli/deployment_adapter.py:2756-3048 | by policy and history: a rollback PUT is issued if and only if the history allows it (integrity, snapshot, retention and a found release, each as far as required), a target digest is set and the required receipt and chain conditions hold of the policy with the found release in it; it is the first request and the only write |
| RollbackTheorems.WrittenReceiptsAreVerified | src/nodechain/cli/deployment_adapter.py:3043-3147 | every receipt of a rollback that wrote has both verification flags and the known-good flag true; its statuses say "verified" exactly when that check was required; and it names the found release's digest, or the configured one where that is blank or none was found |
| RollbackTheorems.RefusedReceiptTells | src/nodechain/cli/deployment_adapter.py:2769-3041 | the receipt of a run that returned without writing: it claims a verified prior release if and only if the history allowed the rollback, a target was set and the receipt was in order as far as checked; it claims no verified chain and no known-good release; and nothing was checked where the history refused or no target was set |
| RollbackTheorems.NothingCheckedIsVerified | src/nodechain/cli/deployment_adapter.py:3043-3147 | a rollback written with both checks off and no prior receipt, whose receipt has all three flags true |
| RollbackTheorems.RolledBackIff | src/nodechain/cli/deployment_adapter.py:2756-3147 | "rolled_back" if and only if policy and history allowed it, the PUT and any Proxmox task succeeded and the required read-back matched; only that last read failing gives "rollback_unverified"; anything else "unknown"; the status tells the four cases apart |
| RollbackTheorems.RolledBackExactly | src/nodechain/cli/deployment_adapter.py:2950-3147 | over every run, raising ones included: "rolled_back" if and only if gates, PUT, Proxmox task and required read-back say so; and the exact requests of such a run |
| RollbackTheorems.ReceiptNamesTarget | src/nodechain/cli/deployment_adapter.py:2769-3145 | the digest of every receipt: the resolved target's, or that of a found release which retention refused, or none when the history refused before one was found |
| RollbackTheorems.ApplyAcceptedIff | src/nodechain/cli/deployment_adapter.py:2555-2698 | an apply is accepted if and only if the digest and the storage query were in order, the path is one of the allowed ones or below one, the POST and any Proxmox task succeeded, and the status read back is the expected one |
| RollbackTheorems.ApplyPostedIff | src/nodechain/cli/deployment_adapter.py:2553-2623 | the POST is sent, as the third request, if and only if the digest and the storage query are in order where required and the path is allowed; otherwise at most the storage query is |
| RollbackTheorems.ApplyReceiptTells | src/nodechain/cli/deployment_adapter.py:2553-2698 | which fault a refused apply reports, the states told before and after, and the digest it claims |
| RollbackTheorems.DeployFinalState | src/nodechain/cli/deployment_adapter.py:3985-4034 | accepted if and only if the final state is "applied"; a rollback is attempted exactly after a rejected apply with rollback configured and a previous digest set; the final state is one of five and is then the rollback's |
| RollbackTheorems.DeployWrites | src/nodechain/cli/deployment_adapter.py:3985-4034 | one deploy sends at most one POST and at most one PUT; the PUT comes after everything the apply sent, and it comes if and only if the apply was rejected with rollback configured and a digest set, and every gate is open |
| RollbackTheorems.AppliedReceiptVouches | src/nodechain/cli/deployment_adapter.py:3149-3264 | round trip: the document `deploy` returns to its caller, whatever else it holds, would vouch for a target, if kept as prior receipt, if and only if that deploy was accepted and applied that target (or no digest) |
| RollbackTheorems.CreatedReceiptsNeverVouch | src/nodechain/cli/deployment_adapter.py:4501-4660 | no receipt made by `create_deployment_receipt`, signed or not, whatever the adapter returned, lets a rollback write while receipts are checked |
| RollbackTheorems.StatelessReceiptsNeverVouch | src/nodechain/cli/deployment_adapter.py:3214-3225 | nor does any other receipt without `final_deployment_state` |
| RollbackTheorems.ChainRefusalClaimsProvenance | src/nodechain/cli/deployment_adapter.py:3014-3041 | a refusal by the chain claims verified provenance; the claim is true exactly when the receipt check was on |
| RollbackTheorems.UncheckedProvenanceIsClaimed | src/nodechain/cli/deployment_adapter.py:3014-3041 | a policy that never checked its prior release and is refused with provenance "verified" |
| DeploymentReceipt.CreatedReceiptVerifies | src/nodechain/cli/deployment_adapter.py:4656-4660 | a created receipt passes the digest check, before and after signing |
| DeploymentReceipt.CreatedReceiptKeeps | src/nodechain/cli/deployment_adapter.py:4501-4653 | field by field: what is copied has the adapter's value, copied when true, when not null or when present; every other field is the function's own |
| DeploymentReceipt.CreatedReceiptsLoseActivation | src/nodechain/cli/deployment_adapter.py:4501-4653 | of the fields that tell of an activation, none is copied, whatever the adapter returned |
| Drift.LegacyPass | src/nodechain/cli/drift_detection.py:355-370 | the first pass lists, each once, exactly the fields whose comparison is "mismatch" |
| Drift.Evaluate | src/nodechain/cli/drift_detection.py:402-426 | a counted field gets the source, strength and comparison of its definition |
| Drift.RequiredFailures | src/nodechain/cli/drift_detection.py:428-458 | the failures of a required field are exactly those its definition gives |
| Drift.PolicyPass | src/nodechain/cli/drift_detection.py:389-466 | the second pass builds every detail, exactly the failures of required fields, the advisory warnings, and the exact count of fields at each strength |
| Drift.Escalate | src/nodechain/cli/drift_detection.py:468-511 | strict escalation keeps the list free of duplicates and makes it exactly what is reported |
| Drift.CheckDrift | src/nodechain/cli/drift_detection.py:226-511 | by the field names of release and observation: the final list holds, without duplicates, exactly the fields that depart, and under strict those that the policy faults and the policy itself when out of force; `drift_detected` holds if and only if it is non-empty; "applied" is expected as "running" and the target stands in for a blank identity; without a verified signature or a release the result is unchecked |
| Drift.ReportedIff | src/nodechain/cli/drift_detection.py:337-511 | the condition the passes compute is the one by field names, for each of the six fields |
| Drift.AgreementIsClean | src/nodechain/cli/drift_detection.py:337-370 | an observation that agrees with the release in every field reports nothing |
| Drift.OneChangeIsOneReport | src/nodechain/cli/drift_detection.py:337-370 | one that departs in a single counted field reports exactly that field |
| Drift.StrictCleanIff | src/nodechain/cli/drift_detection.py:468-511 | in strict mode no drift means exactly: no counted field mismatches, every required one matches or drifts acceptably on sufficient evidence, and the policy is valid |
| Drift.LenientIff | src/nodechain/cli/drift_detection.py:468-511 | without strict mode exactly the mismatches are reported |
| Drift.StrengthsCoverCountedFields | src/nodechain/cli/drift_detection.py:389-466 | the strength counts add up to the number of fields that are not ignored |
| Drift.VerifiedEvidenceIsUnattainable | src/nodechain/cli/drift_detection.py:56-77 | no observation is classified "verified", and so a strict policy that asks for it of a required field reports drift on every target |
| Drift.MisspeltStrengthAsksNothing | src/nodechain/cli/drift_detection.py:47-53 | for a required field nobody observed: a minimum that is a level fails it unless it is "unavailable", the same minimum misspelt never does |
| Drift.InsufficientEvidenceIff | src/nodechain/cli/drift_detection.py:450-458 | a required field lacks evidence if and only if its minimum is a level above what observation and source amount to |
| Remediation.RemediateDrift | src/nodechain/cli/drift_remediation.py:192-336 | a rollback is attempted if and only if drift was reported, signatures, mode, action, known-good release, snapshot, chain and manifest are all in order; every denial leaves the target alone; a receipt is invalid exactly under strict for a denial or an adapter exception; a recommendation names the release's own id and digest; every final state has its exact condition |
| Remediation.SnapshotRequirementNeedsPath | src/nodechain/cli/drift_remediation.py:276-288 | an otherwise warranted rollback goes ahead over an invalid snapshot if and only if the requirement is off or the snapshot path is blank |
| Remediation.InvalidSnapshotIsNoObstacle | src/nodechain/cli/drift_remediation.py:276-288 | a rollback that is warranted over an invalid snapshot although its verification is required |
| Remediation.CheckAndRemediate | src/nodechain/cli/drift_remediation.py:192-336 | a check and then the remediation of its report, by the field names of release and observation: nothing is done if and only if the check could not be carried out or had nothing to report; a rollback is attempted if and only if something was reported and it is warranted otherwise |
| GovernedRollback.Deploy | src/nodechain/cli/deployment_adapter.py:3575-4050 | one deploy does what the first allowed action says; the digest it is given matters to an apply only |
| GovernedRollback.RemediateThrough | src/nodechain/cli/drift_remediation.py:300-334 | remediation calls the adapter exactly when a rollback is warranted, once, and sends nothing otherwise; the receipt shows the state that the result gives |
| GovernedRollback.RolledBackReportedIff | src/nodechain/cli/drift_remediation.py:313-316 | "rolled_back" is reported if and only if, by policy and replies: told to roll back, that went through; told to apply, that failed and the configured rollback after it went through; told to start, stop or reboot, that was a permitted no-op or is confirmed |
| GovernedRollback.ReportIsTrueIff | src/nodechain/cli/drift_remediation.py:313-316 | given such a report, a PUT was sent, succeeded and was read back as required if and only if the adapter's action is neither start, stop nor reboot; for those no PUT was sent |
| GovernedRollback.LifecycleRollsNothingBack | src/nodechain/cli/drift_remediation.py:313-316 | a start, stop or reboot sends nothing that changes the configuration, and is reported as "rolled_back" exactly when accepted |
| GovernedRollback.NoopIsReportedAsRollback | src/nodechain/cli/drift_remediation.py:313-316 | a start that finds the target running sends one status request and is reported as "rolled_back" |
| GovernedRollback.ReceiptsAgreeIff | src/nodechain/cli/drift_remediation.py:300-316 | the digest the adapter's receipt claims is the one the remediation receipt names if and only if the action was an apply that succeeded, by policy and replies, or the adapter's manifest, resolved, names the same digest |
| GovernedRollback.AnotherReleaseIsRolledBackTo | src/nodechain/cli/drift_remediation.py:300-316 | a rollback reported as successful whose receipt names another release than the remediation receipt does |
| JsonRepair.Repair | src/nodechain/adapters/model_adapter.py:242-256 | for every text: the repair is tried exactly when some bracket kind has more openers than closers; what it appends is one quote for an odd number of them, then as many "]" and then as many "}" as openers exceed closers, and nothing else; and the result is well-nested if and only if the text was closable |
| JsonRepair.RepairIsShortest | src/nodechain/adapters/model_adapter.py:242-256 | for a closable text the repair is a shortest completion: no well-nested text that extends it is shorter than the pending openers, and an open string's quote, make it |
| JsonRepair.ClosersOutside | src/nodechain/adapters/model_adapter.py:252-253 | n appended closers leave exactly `rest` pending if and only if n matching openers were on top of it |
| JsonRepair.ClosableIff | src/nodechain/adapters/model_adapter.py:242-256 | a truncated plain text is closed if and only if its pending openers are, bottom to top, some braces and then some brackets; the count differences are the stack's contents |
| JsonRepair.CutShort | src/nodechain/adapters/model_adapter.py:242-256 | every prefix of a well-nested text scans without error, so the main result covers all of them |
| JsonRepair.ArrayOfObjectsIsNotClosed | src/nodechain/adapters/model_adapter.py:252-253 | an array cut short inside an object is not repaired, though it could be |
| Truncation.EstimateTokens | src/nodechain/adapters/lim_model_adapter.py:177-179 | an estimate is never below one |
| Truncation.RFind | src/nodechain/adapters/lim_model_adapter.py:208-211 | the last occurrence, or -1 |
| Truncation.TruncateForContext | src/nodechain/adapters/lim_model_adapter.py:181-216 | the result is a prefix, within half the window where output and margin leave no budget; its estimate, output and margin fit the window if and only if the budget is positive; a cut keeps more than half the budget and falls at the last mark of the first kind found beyond that half, if there is one |
| Truncation.SmallWindowsOverflow | src/nodechain/adapters/lim_model_adapter.py:181-198 | with the default output and margin no result fits a window of 4608 tokens or fewer, and every result fits a larger one |
| Truncation.TruncatingTwice | src/nodechain/adapters/lim_model_adapter.py:181-216 | truncating twice is truncating once |
| CertifiedRegistry.CertifiedRegistry.PublishPackage | src/nodechain/cli/certified_registry.py:103-234 | publishing stores an active entry, its log record and the new digest exactly when the package may be published; a denied entry is returned but never stored |
| CertifiedRegistry.CertifiedRegistry.DeprecateEntry | src/nodechain/cli/certified_registry.py:470-485 | the new state is the old with that entry deprecated, logged and digested; unknown ids change nothing |
| CertifiedRegistry.CertifiedRegistry.RevokeEntry | src/nodechain/cli/certified_registry.py:488-503 | likewise for revocation |
| CertifiedRegistry.CertifiedRegistry.SaveRegistry | src/nodechain/cli/certified_registry.py:77-85 | the stored digest is that of the entries |
| CertifiedRegistry.CertifiedRegistry.CountByStatus | src/nodechain/cli/dashboard.py:190-193 | the four counters equal the sizes of the four status classes and add up to the entries |
| CertifiedRegistry.CertifiedRegistry.CollectStatus | src/nodechain/cli/dashboard.py:190-201 | the counts, and the health that follows from them |
| CertifiedRegistry.ReachableIsConsistent | src/nodechain/cli/certified_registry.py:77-234 | over every sequence of operations from an empty registry: entries and statuses are the replay of the log, none is denied, and the digest matches |
| CertifiedRegistry.RunIsConsistent | src/nodechain/cli/certified_registry.py:77-503 | every run from a consistent state ends in one |
| CertifiedRegistry.CountsAddUp | src/nodechain/cli/dashboard.py:190-205 | active + deprecated + revoked is the total on every reachable state |
| CertifiedRegistry.NeverActiveAgain | src/nodechain/cli/certified_registry.py:470-503 | with fresh ids, no entry returns to active |
| CertifiedRegistry.RevocationLasts | src/nodechain/cli/certified_registry.py:470-503 | a revoked entry ends as deprecated exactly when a deprecation comes after its last revocation |
| CertifiedRegistry.RevokedThenDeprecated | src/nodechain/cli/certified_registry.py:470-503 | such a sequence: published, revoked, deprecated |
| CertifiedRegistry.RunIsStamped | src/nodechain/cli/certified_registry.py:219-219 | on every run each entry keeps the digest it was published with |
| CertifiedRegistry.EntryDigestHoldsIff | src/nodechain/cli/certified_registry.py:470-503 | on every reachable state the digest of an entry is that of its content if and only if the entry is still active (no collision) |
| RegistrySnapshot.SnapshotIsCurrent | src/nodechain/cli/certified_registry.py:508-547 | a snapshot of any reachable registry verifies, counts its entries and, unless the registry is empty, carries the digest of the entries that are there |
| RegistrySnapshot.SnapshotIdentifiesEntries | src/nodechain/cli/certified_registry.py:508-523 | snapshots of two reachable, non-empty registries carry the same digest if and only if the entries are the same (no collision) |
| EvalSuiteRegistry.EvalSuiteRegistry.RegisterSuite | src/nodechain/cli/eval_suite_registry.py:75-136 | a digest that is there is returned unchanged; a new one is entered and logged |
| EvalSuiteRegistry.EvalSuiteRegistry.RevokeSuite | src/nodechain/cli/eval_suite_registry.py:151-176 | revocation is entered and logged; unknown digests change nothing |
| EvalSuiteRegistry.EvalSuiteRegistry.VerifySuite | src/nodechain/cli/eval_suite_registry.py:179-221 | valid if and only if registered, active where asked, and within the window |
| EvalSuiteRegistry.RevokedStaysRevoked | src/nodechain/cli/eval_suite_registry.py:106-176 | a revoked digest stays revoked under every later sequence of operations, re-registration of the same content included |
| EvalSuiteRegistry.RunIsFaithful | src/nodechain/cli/eval_suite_registry.py:106-176 | on every run the log accounts for every entry and status, and each digest is registered once |
| EvalSuiteRegistry.ActiveIff | src/nodechain/cli/eval_suite_registry.py:106-176 | a suite's entry is active exactly when the suite was registered, claims to be active and was never revoked (no digest collision) |
| EvalSuiteRegistry.RegisteredWindow | src/nodechain/cli/eval_suite_registry.py:106-220 | a suite is valid from and until the times it was registered with |
| AuditBundle.BuildFileManifest | src/nodechain/cli/audit_bundle.py:90-107 | one entry per file, with its digest and size, in the given order |
| AuditBundle.VerifyIntegrity | src/nodechain/cli/audit_bundle.py:211-252 | the findings are exactly the missing, changed, resized and unexpected files; a bundle without a manifest is not checked |
| AuditBundle.GenerateBundle | src/nodechain/cli/audit_bundle.py:843-903 | the manifest lists the files before the summary is rewritten; the archive holds them with the metadata and the longer summary |
| AuditBundle.RewriteSummary | src/nodechain/cli/audit_bundle.py:893-903 | the copy differs in the summary alone |
| AuditBundle.IntactIff | src/nodechain/cli/audit_bundle.py:211-252 | a manifest over a non-empty file map finds nothing wrong if and only if the archive without its metadata holds exactly those files (no collision) |
| AuditBundle.GeneratedBundleFindings | src/nodechain/cli/audit_bundle.py:881-903 | a generated bundle always fails its own check: the size of the summary is wrong whatever the hash, and nothing but the summary is |
| AuditBundle.UnrewrittenBundleIsIntact | src/nodechain/cli/audit_bundle.py:843-876 | before the rewrite it would have passed |
| Attestation.VerifyAttestation | src/nodechain/cli/attestation.py:317-597 | the verifier reports exactly the errors defined for the file and the options, and is valid if and only if there are none |
| Attestation.Override | src/nodechain/cli/attestation.py:420-432 | profile flags add up; explicit expectations win over the profile's |
| Attestation.EffectiveIs | src/nodechain/cli/attestation.py:420-432 | each effective expectation is the option's where that is given, else the profile's |
| Attestation.TighteningIff | src/nodechain/cli/attestation.py:420-597 | what stricter options accept, laxer ones accept if and only if no profile expectation was overridden: profile, strict mode, signature requirement and expectations otherwise only ever tighten |
| Attestation.AnOptionLoosens | src/nodechain/cli/attestation.py:420-432 | options, a profile and an attestation where adding an expectation turns rejection into acceptance |
| Attestation.GenerateThenVerify | src/nodechain/cli/attestation.py:213-251 | under any options and any profile, a generated attestation is accepted if and only if the profile loads and admits it, the options in force expect what it was generated from, verdict and policy satisfy strict mode, and the signature is there and verifies as far as asked |
| Attestation.StrictAcceptance | src/nodechain/cli/attestation.py:446-597 | any generated attestation that strict verification accepts had a compliant verdict and a policy bound by its digest |
| Attestation.StrictTrustsTheClaim | src/nodechain/cli/attestation.py:446-597 | what is accepted stays accepted with any other verdict, except "non_compliant" under strict; a strictly accepted attestation has an allowing verdict if and only if its verdict is known |
| Attestation.UnknownVerdictIsAccepted | src/nodechain/cli/attestation.py:446-597 | an attestation with an unknown verdict that strict verification accepts |
| ReceiptDigests.SealedVerifies | src/nodechain/cli/deploy_receipt.py:132-137 | for all six kinds of document, the digest the verifier recomputes is the one stored, before and after signing, although the exclusion lists differ; signing leaves what the signature covers unchanged |
| ReceiptDigests.TamperingIsDetected | src/nodechain/cli/deploy_receipt.py:341-352 | a document that keeps the stored digest passes if and only if every covered field is unchanged (no collision) |
| ReceiptDigests.SchemesAreWellFormed | src/nodechain/cli/drift_detection.py:684-697 | in every kind the creator excludes no field the verifier covers, and the digest is not a signature field |
| ReceiptDigests.SealingTwice | src/nodechain/cli/certification.py:180-185 | recomputing the digest when signing changes nothing |
| ReceiptDigests.CheckRegistrySnapshot | src/nodechain/cli/certified_registry.py:537-547 | the digest branch of `verify_registry_snapshot` decides as its scheme says, a missing digest included |
| ReceiptDigests.CheckRegistryEntry | src/nodechain/cli/certified_registry.py:332-340 | the digest branch of `verify_registry_entry` decides as its scheme says, a missing digest included |
| ReceiptDigests.CheckDriftPolicy | src/nodechain/cli/drift_detection.py:787-800 | the digest branch of `verify_drift_policy_signature` decides as its scheme says, a missing digest included |
| ReceiptDigests.CheckCertification | src/nodechain/cli/certification.py:266-277 | the digest branch of `verify_certification` decides as its scheme says, a missing digest included |
| ReceiptDigests.CheckReceipt | src/nodechain/cli/deploy_receipt.py:341-353 | the digest branch of `verify_receipt`, and of `verify_deployment_receipt`, decides as its scheme says and passes over a missing digest |
| ReceiptDigests.MissingDigest | src/nodechain/cli/certification.py:267-276 | taking the digest out defeats the check, as the branches above decide it, exactly for the two kinds of receipt |
| LatencyPercentiles.GroupByName | src/nodechain/cli/dashboard.py:491-499 | the groups are the values of each metric name, in order |
| LatencyPercentiles.CollectLatencies | src/nodechain/cli/dashboard.py:490-507 | one summary per metric name that occurs, with its count and both percentiles, p50 <= p95 |
| LatencyPercentiles.GroupingKeepsEverySample | src/nodechain/cli/dashboard.py:497-499 | grouping neither loses nor invents a sample, multiplicities included |
| LatencyPercentiles.RankIsCeiling | src/nodechain/cli/dashboard.py:502-507 | the rank is the ceiling of p*n and in range for every n >= 1 |
| LatencyPercentiles.PercentileSplitsTheSamples | src/nodechain/cli/dashboard.py:500-507 | a percentile is one of the samples, at least ceil(p*n) of them are at most it and fewer are strictly below |
| LatencyPercentiles.PercentilesAscend | src/nodechain/cli/dashboard.py:500-507 | a larger p never gives a smaller percentile |
| LatencyPercentiles.OrderedSorts | src/nodechain/cli/dashboard.py:501-501 | sorting keeps the samples and puts them in order |
| LatencyPercentiles.SummaryIgnoresRowOrder | src/nodechain/cli/dashboard.py:490-507 | the summary does not depend on the order of the rows |
| AdapterRanking.SumPerAdapter | src/nodechain/cli/dashboard.py:513-527 | the dictionary of sums, or an abort of the section when some labels are not an object |
| AdapterRanking.SortItems | src/nodechain/cli/dashboard.py:531-533 | the sorted items are the one table ranked by count descending, then id ascending |
| AdapterRanking.PrecedesIff | src/nodechain/cli/dashboard.py:531-533 | ids are ordered as Python orders strings: a proper prefix first, else by the first character that differs |
| AdapterRanking.BinIsOther | src/nodechain/cli/dashboard.py:534-540 | the bin is one row named "other" behind the top twenty, present exactly when the rest sums to more than nothing, with that sum |
| AdapterRanking.BinAdapters | src/nodechain/cli/dashboard.py:509-542 | the whole section: top twenty and a bin, as `Report` defines them |
| AdapterRanking.CountsAreTotals | src/nodechain/cli/dashboard.py:513-525 | an adapter has a count exactly when some row names it, and it is the total of those rows |
| AdapterRanking.ConservationIff | src/nodechain/cli/dashboard.py:531-540 | for any table, however written: table and bin conserve the attributed total if and only if the binned counts do not sum below zero |
| AdapterRanking.CountersAreConserved | src/nodechain/cli/dashboard.py:531-540 | counts that are not negative, which is all the metrics emitter lets through, are always conserved |
| AdapterRanking.ListedOutrankBinned | src/nodechain/cli/dashboard.py:531-540 | at most twenty-one rows; every adapter is listed with its total or outranked by twenty that are |
| AdapterRanking.RankedIsUnique | src/nodechain/cli/dashboard.py:531-533 | two tables with the same adapters are equal: the order leaves no ties |
| AdapterRanking.ReportIgnoresRowOrder | src/nodechain/cli/dashboard.py:513-540 | the table does not depend on the order of the rows |
| MemoryReads.WorstHealthIsFirstWorst | src/nodechain/cli/dashboard.py:43-57 | `worst_health` is the first of the highest ranked |
| MemoryReads.RanksAscend | src/nodechain/cli/dashboard.py:43-57 | from best to worst: healthy, warning, unknown, degraded, critical, and a status of no known name as bad as critical |
| MemoryReads.ReadDecisions | src/nodechain/cli/dashboard.py:879-905 | the decisions by id, later rows winning, and the counts of allows and denials |
| MemoryReads.ClassifyExposures | src/nodechain/cli/dashboard.py:911-964 | the loop with its early exits counts exactly the undecided and the mismatched exposures among those before the first unreadable payload, and collects their nodes |
| MemoryReads.ExposuresPartition | src/nodechain/cli/dashboard.py:916-964 | every exposure is exactly one of undecided, mismatched and bound to a compatible allow, and the three counts add up to the events |
| MemoryReads.CollectMemoryReads | src/nodechain/cli/dashboard.py:868-995 | all counters and flags, with and without a state manager; health critical if and only if some readable exposure is not bound to an allow, otherwise a warning exactly when there are denials |
| MemoryReads.RecordedFinds | src/nodechain/cli/dashboard.py:894-903 | a decision id that occurs once is looked up as that row |
| MemoryReads.UnreadableHidesTheRest | src/nodechain/cli/dashboard.py:916-970 | an unreadable payload keeps every later exposure, and nothing before it, from being classified |
| IncidentPipeline.Detect | nodes/incident_response/implementations/incident_detector.py:48-92 | detected exactly when some anomaly is listed, with an id made of "INC-" and the first eight characters of the run; the hint is "critical" exactly with a critical alert, else "warning" exactly when detected |
| IncidentPipeline.AnomaliesListed | nodes/incident_response/implementations/incident_detector.py:56-88 | the anomalies are that of the drift, one for each signal out of bounds in the order they came in, under its own metric and source, and one with the number of critical alerts |
| IncidentPipeline.Triage | nodes/incident_response/implementations/severity_triager.py:54-95 | score and blast radius over all anomalies; severity, urgency and the need for remediation have their exact conditions |
| IncidentPipeline.ScoreCounts | nodes/incident_response/implementations/severity_triager.py:59-78 | the score is 30 for each drift, 50 for each alert anomaly, 25 for each name that spells cpu or memory in whatever case, and 10 for each other one |
| IncidentPipeline.BlastRadiusIff | nodes/incident_response/implementations/severity_triager.py:59-78 | the blast radius names exactly the sources of drift, the counts of alerts, and the kinds of resources and of other metrics |
| IncidentPipeline.Decide | nodes/incident_response/implementations/remediation_decisioner.py:62-122 | "recommend" with a rollback action exactly for high and medium severity, otherwise manual; authorised exactly when remediation is required; automatic rollback is never chosen |
| IncidentPipeline.Remediate | nodes/incident_response/implementations/governed_remediator.py:65-119 | execution if and only if authorised and automatic; every final state has its exact condition and its evidence |
| IncidentPipeline.VerifyRecovery | nodes/incident_response/implementations/recovery_verifier.py:56-126 | the status follows from the final state; recovered only for "resolved" and "no_incident"; the evidence chain is kept and closed |
| IncidentPipeline.AnomaliesScored | nodes/incident_response/implementations/severity_triager.py:59-78 | what the detector passes on is empty exactly when nothing was wrong, and scores the observed total |
| IncidentPipeline.RunPipeline | nodes/incident_response/implementations/recovery_verifier.py:72-126 | all five nodes in a row, over all observations: never executed, never recovered; "denied" if and only if there is no drift, no signal out of bounds and no critical alert, "awaiting_operator" if and only if there is a critical alert or the score counted from the observations reaches 70, otherwise "remediation_pending"; severity is low, critical and high in these cases, never medium; the incident id is that of the run and each case has its exact evidence chain |
| IncidentPipeline.MoreEvidenceNeverCalms | nodes/incident_response/implementations/severity_triager.py:59-92 | more signals, alerts or drift, in any order, never lower the outcome |

## Left out

- HTTP, TLS, SSH, subprocesses, SQLite, ZIP and file access are replaced by streams, maps and sequences; registry load and save are the object's own state.
- Message texts, timestamps, durations, log digests and endpoint fields of receipts are not modelled; neither is `failure_mode` where the status determines it.
- Receipts store boot ids hashed or raw; the model compares the ids themselves.
- The slices in messages that can raise (`upid[:24]`, the artifact and bundle digests of prior documents) are modelled; other formatting is not. The text `str()` gives for an odd task id is only known to be non-empty.
- The polling clock is a reading for each loop test; it need not be monotone, which makes the results stronger.
- `deploy` is modelled from the choice of the action on: manifest validation, credentials and secret-reference checks before it, and remediation through any other action, are not.
- `create_deployment_receipt` is modelled as the fields of its receipt: manifest, trust store and context checks before them, and the values of its own fields, are not.
- An entry digest holds or not as stored; signing an entry afresh renews its digest and is not an operation of the registry here.
- No request of the adapter carries an artifact digest, so what is in place on the target is known only as what receipts claim.
- RollbackTheorems.AppliedReceiptVouches: is about the document `deploy` returns, because the receipts that are written out drop its fields; nothing in the repository keeps it.
- A memory-read lookup that fails in the database itself is not modelled; one that fails on a payload is.
- Fields that early rejection receipts lack (for instance `tls_verified`) are not told apart from blank ones.
- The release history, its snapshots, the trust store, RSA keys and PEM handling are oracles; nothing is claimed about them.
- Upload, promote and read-only actions, the SSH, dry-run and local adapters, and secret-reference policy would add only single checks.
- The fields of prior documents keep any JSON shape, but attestations, profiles, drift reports, policies, registry entries, signals and exposure metadata have their declared types.
- The other parsing stages of `_extract_json` and `_repair_json`, and `strip`, are library work; only bracket and quote nesting of the result is judged, not that it parses as JSON.
- JsonRepair.ClosableIff: does not cover escapes or brackets inside strings, because there the counts and the pending openers part ways; Repair states the exact condition for every text.
- Truncation.TruncatingTwice: does not cover a negative context window, because Python's slice then counts from the end.
- `get_effective_context` and the model catalogue are not modelled; the window is a parameter.
- `sorted` and list `sort` are modelled by the one sorted permutation, `rfind` by a loop that finds the last occurrence.
- LatencyPercentiles.RankIsCeiling: does not model floating-point rounding of p*n, because p is an exact rational here.
- Success rate, outcome and rejection counters of the recovery section are plain sums and would add only easy members.
- The order in which Python iterates over a dictionary or a set is arbitrary in the model.
- Drift reports, remediation receipts as documents, and the merge of adapter evidence into them are not modelled.
- Certification rules beyond the digest, and registry verification beyond the digest, are not modelled.
- Orchestrator, scheduler, persistence, rendering, model clients and the other nodes are not part of this model.
