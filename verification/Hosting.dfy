/** The runtime's environment as a host provides it: SHA-256, canonical JSON and the default session sync. */
module Hosting {
  import opened Text
  import opened CanonicalJson
  import opened Digests
  import opened SessionMerkle
  import opened Frames
  import opened NbcTurn
  import opened RuntimeModel

  /** What one host brings to the runtime. */
  datatype Host = Host(
    signer: Signer, verifier: Verifier, policyOk: Json -> bool, validator: Validator, syncParty: Option<string>)

  ghost function TipFn(sha: Sha): Frame -> string
    requires Sha256Like(sha)
  {
    f => TipOf(sha, f)
  }

  /** frameDedupeKeyHex. */
  function KeyOf(sha: Sha, f: Frame): string
    requires Sha256Like(sha)
  {
    ShaHex(sha, f.pHash + ":" + f.sig)
  }

  /** The runtime over SHA-256, canonical JSON and the default session sync. */
  ghost function EnvOf(sha: Sha, h: Host): Env
    requires Sha256Like(sha)
  {
    Env(TipFn(sha), f => KeyOf(sha, f), h.signer.actor,
        (tip, kind, body) => SignedFrame(h.signer, tip, kind, body).sig,
        f => SignatureOk(h.verifier, f), h.policyOk, h.validator, h.syncParty,
        ops => CheckpointOf(sha, ops), (base, delta, claimed) => ExtendsBy(sha, base, delta, claimed))
  }
}
