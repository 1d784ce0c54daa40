/** The event loop of a server connection (`drain_events` and `submit_new_token`, tokio-ngtcp2/src/server.rs). */
module ConnectionEvents {
  import opened Resolve
  import opened Admission
  import opened AddressValidation

  class ServerConnection {
    var remoteAddr: Addr
    var addressValidated: bool
    var newTokenSubmitted: bool
    /** Whether the server passes the secret for NEW_TOKEN tokens to its connections. */
    const newTokenEnabled: bool

    ghost function View(): Live
      reads this
    {
      Live(remoteAddr, addressValidated, newTokenSubmitted)
    }

    constructor (from: Addr, validated: bool, newTokenEnabled: bool)
      ensures View() == Live(from, validated, false) && this.newTokenEnabled == newTokenEnabled
    {
      remoteAddr, addressValidated, newTokenSubmitted := from, validated, false;
      this.newTokenEnabled := newTokenEnabled;
    }

    /** Returns what is to be logged for the connection logged at `id`. */
    method SubmitNewToken(id: nat, ts: nat, made: bool, taken: bool) returns (logged: Log)
      modifies this`newTokenSubmitted
      ensures forall cfg: Config, log: Log :: cfg.newToken == newTokenEnabled ==>
        AddressValidation.SubmitNewToken(cfg, old(View()), id, log, ts, made, taken) == (View(), log + logged)
    {
      logged := [];
      if newTokenSubmitted || !addressValidated {
        assert forall log: Log :: log + [] == log;
        return;
      }
      if !newTokenEnabled || !made {
        assert forall log: Log :: log + [] == log;
        return;
      }
      logged := [NewTokenMade(id, NewToken(remoteAddr, ts), taken)];
      if taken {
        newTokenSubmitted := true;
      }
    }

    method DrainEvents(cfg: Config, id: nat, log: Log, events: seq<ConnEvent>) returns (after: Log)
      requires cfg.newToken == newTokenEnabled
      modifies this
      ensures (View(), after) == AddressValidation.DrainEvents(cfg, old(View()), id, log, events)
    {
      after := log;
      for i := 0 to |events|
        invariant (View(), after) == AddressValidation.DrainEvents(cfg, old(View()), id, log, events[..i])
      {
        assert events[..i + 1][..i] == events[..i];
        match events[i] {
          case HandshakeCompleted(ts, made, taken) =>
            var logged := SubmitNewToken(id, ts, made, taken);
            after := after + logged;
          case PathValidated(addr, success) =>
            if success {
              remoteAddr := addr;
              after := after + [PathProven(id, addr)];
            }
          case OtherEvent =>
        }
      }
      assert events[..|events|] == events;
    }
  }
}
