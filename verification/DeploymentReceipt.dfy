/** The receipt that `create_deployment_receipt` makes of what an adapter returned: some
    fields of its own, some copied from the result, and a digest over both. */
module DeploymentReceipt {
  import opened Wire
  import opened ReceiptDigests

  // ----- the fields

  /** What the receipt holds of its own, with a manifest and with a trust store snapshot. */
  const OWN: set<string> := {
    "schema_version", "type", "deployment_receipt_id", "gate_receipt_id", "deployment_system", "target",
    "artifact_digest", "policy_digest", "deploy_status", "deployer_identity", "deploy_detail",
    "deploy_started_at", "deploy_finished_at", "assurance_receipt_id", "assurance_receipt_digest",
    "nodechain_version"}

  const OF_MANIFEST: set<string> := {
    "adapter_manifest_digest", "command_template_digest", "adapter_manifest_signature_status",
    "adapter_manifest_signer_fingerprint", "adapter_manifest_signer_trusted", "trust_store_mode",
    "signer_required_purpose", "signer_allowed_purposes", "purpose_authorized",
    "trust_store_snapshot_digest", "trust_store_snapshot_signature_status"}

  /** copied when they are true in Python's sense */
  const COPIED_IF_TRUE: set<string> := {
    "stdout_digest", "stderr_digest", "command_executed", "execution_mode", "argv_template_digest",
    "resolved_argv_digest", "proxmox_node", "vmid", "api_endpoint", "api_endpoint_identity",
    "token_secret_ref_redacted", "task_started_at", "task_finished_at", "task_api_status", "task_log_digest",
    "requested_action", "effective_action", "idempotency_policy", "boot_evidence_source"}

  /** copied unless they are null */
  const COPIED_UNLESS_NULL: set<string> := {
    "proxmox_task_upid", "task_exitstatus", "pre_state", "post_state", "task_poll_count", "task_duration_ms",
    "pre_uptime_seconds", "post_uptime_seconds"}

  /** copied when they are there */
  const COPIED_IF_PRESENT: set<string> := {
    "execution_exit_code", "shell_used", "proxmox_command_shape", "host_key_pin_checked", "host_key_pin_matched",
    "remote_hash_verified", "remote_hash_matched", "tls_verified", "response_status_code",
    "token_secret_ref_type", "secret_source_allowed", "secret_resolved", "secret_value_serialized",
    "state_transition_verified", "task_success", "no_op", "boot_identity_changed", "uptime_reset_detected",
    "pre_boot_id", "post_boot_id", "boot_id_changed", "uptime_fallback_used", "boot_id_hashed"}

  /** the one field that is copied under another name */
  const ACTION := "proxmox_action"

  predicate IsCopied(field: string, value: Json) {
    || (field in COPIED_IF_TRUE && value.Truthy())
    || (field in COPIED_UNLESS_NULL && !value.Null?)
    || field in COPIED_IF_PRESENT
  }

  function Copied(deployed: Doc): Doc {
    (map field | field in deployed && IsCopied(field, deployed[field]) :: deployed[field])
    + if "action" in deployed && deployed["action"].Truthy() then map[ACTION := deployed["action"]] else map[]
  }

  /** `own` is what the function adds of its own, `deployed` what the adapter returned. */
  function Created(sha: Sha, own: Doc, deployed: Doc): Doc {
    Seal(sha, DEPLOYMENT_RECEIPT, own + Copied(deployed))
  }

  // ----- what it keeps and what it loses

  /** A created receipt verifies, before and after signing. */
  lemma CreatedReceiptVerifies(sha: Sha, own: Doc, deployed: Doc, signature: Doc)
    requires signature.Keys <= RECEIPT_SIGNATURE
    requires forall d :: sha(d) != ""
    ensures DigestHolds(sha, DEPLOYMENT_RECEIPT, Created(sha, own, deployed))
    ensures DigestHolds(sha, DEPLOYMENT_RECEIPT, Sign(DEPLOYMENT_RECEIPT, Created(sha, own, deployed), signature))
  {
    SealedVerifies(sha, DEPLOYMENT_RECEIPT, own + Copied(deployed), signature);
  }

  /** Field by field: what was copied has the adapter's value, the rest the function's own. */
  lemma CreatedReceiptKeeps(sha: Sha, own: Doc, deployed: Doc, field: string)
    requires field != DEPLOYMENT_RECEIPT.digestField && field != "proxmox_action"
    ensures var created := Created(sha, own, deployed);
            var copied := field in deployed
                          && (|| (field in COPIED_IF_TRUE && deployed[field].Truthy())
                              || (field in COPIED_UNLESS_NULL && deployed[field] != Null)
                              || field in COPIED_IF_PRESENT);
            && (field in created <==> copied || field in own)
            && (copied ==> created[field] == deployed[field])
            && (field in own && !copied ==> created[field] == own[field])
  {
    hide COPIED_IF_TRUE, COPIED_UNLESS_NULL, COPIED_IF_PRESENT;
  }

  /** Which fields an activation is told by. */
  const OF_ACTIVATION: set<string> := {"final_deployment_state", "activation_verified", "activated_artifact_digest"}

  lemma ActivationIsNotOwn(field: string)
    requires field in OF_ACTIVATION
    ensures field !in OWN && field != ACTION && field != DEPLOYMENT_RECEIPT.digestField
  {
  }

  lemma ActivationIsNotOfManifest(field: string)
    requires field in OF_ACTIVATION
    ensures field !in OF_MANIFEST
  {
  }

  lemma ActivationIsNotCopied(field: string)
    requires field in OF_ACTIVATION
    ensures field !in COPIED_IF_TRUE && field !in COPIED_UNLESS_NULL
  {
  }

  lemma ActivationIsNotCopiedIfPresent(field: string)
    requires field in OF_ACTIVATION
    ensures field !in COPIED_IF_PRESENT
  {
  }

  /** Whatever the adapter returned, the receipt says nothing of an activation. */
  lemma CreatedReceiptsLoseActivation(sha: Sha, own: Doc, deployed: Doc, field: string)
    requires own.Keys <= OWN + OF_MANIFEST && field in OF_ACTIVATION
    ensures field !in Created(sha, own, deployed)
  {
    hide *;
    ActivationIsNotOwn(field);
    ActivationIsNotOfManifest(field);
    ActivationIsNotCopied(field);
    ActivationIsNotCopiedIfPresent(field);
    NotCreated(sha, own, deployed, field);
  }

  lemma NotCreated(sha: Sha, own: Doc, deployed: Doc, field: string)
    requires field !in own && field !in COPIED_IF_TRUE && field !in COPIED_UNLESS_NULL && field !in COPIED_IF_PRESENT
    requires field != ACTION && field != DEPLOYMENT_RECEIPT.digestField
    ensures field !in Created(sha, own, deployed)
  {
    assert field !in Copied(deployed);
  }
}
