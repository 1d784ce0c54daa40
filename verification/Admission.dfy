/**
  What the server decides about an Initial packet before it creates any state: the address
  validation part of `handle_new_connection` (tokio-ngtcp2/src/server.rs).

  Tokens are ideal: the network may present any token, and one verifies only if the server made
  it for the same parameters and it has not expired (ngtcp2/src/retry.rs).
 */
module Admission {
  import opened Octets
  import opened Resolve

  datatype RetryToken = RetryToken(version: nat, addr: Addr, scid: Cid, originalDcid: Cid, ts: nat)
  datatype NewToken = NewToken(addr: Addr, ts: nat)

  /** An empty token, or one with an unknown first byte, counts as none. */
  datatype WireToken = NoToken | FromRetry(retry: RetryToken) | FromNewToken(token: NewToken)

  /** The tokens this server has made. */
  datatype Issued = Issued(retry: set<RetryToken>, newTokens: set<NewToken>)

  datatype Config = Config(retryConfigured: bool, newToken: bool, scidLen: nat, timeout: nat)

  /** An Initial that `accept_initial` accepted, of a supported version. */
  datatype Initial = Initial(version: nat, dcid: Cid, scid: Cid, token: WireToken)

  datatype Decision =
    | SendRetry
    | RejectToken
    | Admit(originalDcid: Cid, validated: bool, retried: bool)

  predicate Expired(made: nat, timeout: nat, ts: nat) {
    made + timeout <= ts
  }

  /** `verify_retry_token`: the original DCID, if the token proves this address and this DCID. */
  function VerifyRetry(issued: Issued, t: RetryToken, version: nat, from: Addr, dcid: Cid, timeout: nat, ts: nat): Option<Cid> {
    if t in issued.retry && t.version == version && t.addr == from && t.scid == dcid && !Expired(t.ts, timeout, ts)
    then Some(t.originalDcid)
    else None
  }

  /** `verify_new_token` */
  predicate VerifyNew(issued: Issued, t: NewToken, from: Addr, timeout: nat, ts: nat) {
    t in issued.newTokens && t.addr == from && !Expired(t.ts, timeout, ts)
  }

  function Decide(cfg: Config, issued: Issued, i: Initial, from: Addr, ts: nat): Decision {
    match i.token
    case NoToken =>
      if cfg.retryConfigured then SendRetry else Admit(i.dcid, false, false)
    case FromRetry(t) =>
      (match VerifyRetry(issued, t, i.version, from, i.dcid, cfg.timeout, ts)
       case Some(odcid) => Admit(odcid, true, true)
       case None => RejectToken)
    case FromNewToken(t) =>
      if VerifyNew(issued, t, from, cfg.timeout, ts) then Admit(i.dcid, true, false) else RejectToken
  }

  /** The server's SCID: the Retry's, which the client already uses, or a generated one, if there is one. */
  function ServerScid(d: Decision, i: Initial, generated: Option<Cid>): Option<Cid>
    requires d.Admit?
  {
    if d.retried then Some(i.dcid) else generated
  }

  /** The routing key: the SCID, or an internal one if the SCID is empty. */
  function ConnKey(scid: Cid, internal: Option<Key>): Option<Key> {
    if scid == [] then internal else Some(scid)
  }

  /** Every Retry this server made has an SCID of that length. */
  predicate TokensOk(cfg: Config, issued: Issued) {
    forall t :: t in issued.retry ==> |t.scid| == RetryScidLen(cfg)
  }

  /** The length of a Retry's SCID. */
  function RetryScidLen(cfg: Config): nat {
    Max(cfg.scidLen, 8)
  }
}
