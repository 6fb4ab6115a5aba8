/** How far the fake travels: the hop limit it is sent with, against routers that count it down. */
module FakeTtl {
  import opened Bytes
  import opened Wrappers

  const HOP_MARGIN := 3

  /** The initial hop limit guessed from the one observed on the server's SYN-ACK. */
  function GuessedInitial(observed: byte): int {
    if observed > 128 then 255 else if observed > 64 then 128 else 64
  }

  function FakeTtl(configured: int, observed: byte): int {
    if observed == 0 then configured
    else
      var ttl := GuessedInitial(observed) - observed - HOP_MARGIN;
      var atLeast1 := if ttl < 1 then 1 else ttl;
      if atLeast1 > configured then configured else atLeast1
  }

  /** Section 5.3.1 of RFC 1812: each router takes one off and discards at zero.
      The hop limit left after the last router, or None if the packet died on the way. */
  function Forward(ttl: int, routers: nat): Option<int>
    decreases routers
  {
    if routers == 0 then Some(ttl)
    else if ttl <= 1 then None
    else Forward(ttl - 1, routers - 1)
  }

  lemma {:induction false} ForwardLaw(ttl: int, routers: nat)
    ensures Forward(ttl, routers) == if routers == 0 || ttl > routers then Some(ttl - routers) else None
    decreases routers
  {
    if routers > 0 && ttl > 1 {
      ForwardLaw(ttl - 1, routers - 1);
    }
  }

  /** For a server that starts at one of the usual hop limits: on every forward path of at least one router
      and at most HOP_MARGIN shorter than the return path, the fake is dropped before the server. */
  lemma FakeDiesBeforeServer(initial: byte, observed: byte, returnPath: nat, forwardPath: nat, configured: int)
    requires initial == 64 || initial == 128 || initial == 255
    requires Forward(initial, returnPath) == Some(observed) && observed != 0
    requires configured >= 1
    requires forwardPath >= 1 && forwardPath + HOP_MARGIN >= returnPath
    ensures GuessedInitial(observed) <= initial
    ensures 1 <= FakeTtl(configured, observed) <= configured
    ensures Forward(FakeTtl(configured, observed), forwardPath) == None
  {
    ForwardLaw(initial, returnPath);
    ForwardLaw(FakeTtl(configured, observed), forwardPath);
  }

  /** The fake dies on exactly these forward paths, whatever the server started at and whatever is configured:
      long enough for the guessed distance less the margin, or for the configured limit. */
  lemma FakeDiesObserved(observed: byte, forwardPath: nat, configured: int)
    requires observed != 0
    ensures Forward(FakeTtl(configured, observed), forwardPath) == None
            <==> forwardPath >= 1
                 && (forwardPath + HOP_MARGIN + observed >= GuessedInitial(observed) || forwardPath >= configured)
  {
    ForwardLaw(FakeTtl(configured, observed), forwardPath);
  }

  /** Where the guess is right, the guessed distance is that of the return path. */
  lemma FakeDiesExactly(initial: byte, observed: byte, returnPath: nat, forwardPath: nat, configured: int)
    requires initial == 64 || (initial == 128 && returnPath < 64) || (initial == 255 && returnPath < 127)
    requires Forward(initial, returnPath) == Some(observed) && observed != 0
    ensures GuessedInitial(observed) == initial
    ensures Forward(FakeTtl(configured, observed), forwardPath) == None
            <==> forwardPath >= 1 && (forwardPath + HOP_MARGIN >= returnPath || forwardPath >= configured)
  {
    ForwardLaw(initial, returnPath);
    FakeDiesObserved(observed, forwardPath, configured);
  }

  /** The servers and return paths for which the guess is right. */
  lemma GuessIsRight(initial: byte, observed: byte, returnPath: nat)
    requires initial == 64 || initial == 128 || initial == 255
    requires Forward(initial, returnPath) == Some(observed) && observed != 0
    ensures GuessedInitial(observed) == initial
            <==> initial == 64 || (initial == 128 && returnPath < 64) || (initial == 255 && returnPath < 127)
  {
    ForwardLaw(initial, returnPath);
  }

  /** An unknown hop limit leaves the configured one, and then the fake dies exactly on paths that long. */
  lemma UnknownHopLimit(configured: int, forwardPath: nat)
    ensures Forward(FakeTtl(configured, 0), forwardPath) == None <==> forwardPath >= 1 && forwardPath >= configured
  {
    ForwardLaw(configured, forwardPath);
  }
}
