/** Stamping an artifact with the identity of its spec, and deciding later
    whether it may still be consumed. */
module SpecIdentity {
  import opened Base
  import opened Lines
  import opened SpecContract

  /** A field of a parsed record: absent, a string, or any other JSON value. */
  datatype Field = Missing | Text(value: string) | Malformed

  /** The identity in a stored record, which is parsed but not validated JSON. */
  datatype Identity =
    | NoIdentity
    | NotAnObject
    | Identity(contractHash: Field, auditHash: Field, effectiveContractHash: Field, enrichedContractHash: Field)

  datatype Resolution = Found(identity: Identity) | ContestedOwners(claimants: seq<string>)

  datatype Verdict = Match(operationalOnly: bool) | Stale | UnknownLegacy | Unverifiable | Diverged | Contested

  type Hash = string -> string

  /** The hash as the protocol uses it: no collisions, and never empty. */
  ghost predicate Faithful(hash: Hash) {
    (forall x, y :: hash(x) == hash(y) ==> x == y) && forall x :: hash(x) != ""
  }

  // ---------------------------------------------------------------------
  // Stamping

  function HashOfOptional(hash: Hash, content: Option<string>): Field {
    match content
    case None => Missing
    case Some(text) =>
      var h := hash(Contract(text));
      if h == "" then Missing else Text(h)
  }

  function ComputeSpecIdentity(hash: Hash, content: string, inHand: Option<string>,
                               enriched: Option<string>): Identity {
    Identity(Text(hash(Contract(content))), Text(hash(content)),
             HashOfOptional(hash, inHand), HashOfOptional(hash, enriched))
  }

  // ---------------------------------------------------------------------
  // Comparing

  predicate WellFormed(identity: Identity) {
    identity.Identity? && identity.contractHash.Text? && identity.contractHash.value != "" &&
    !identity.effectiveContractHash.Malformed?
  }

  /** A value that JavaScript takes as true. */
  predicate Truthy(f: Field) {
    f.Malformed? || (f.Text? && f.value != "")
  }

  function CompareSpecIdentity(stored: Identity, current: Identity, versioned: bool): Verdict {
    if stored.NoIdentity? then (if versioned then Unverifiable else UnknownLegacy)
    else if !WellFormed(stored) then Unverifiable
    else if !WellFormed(current) then Unverifiable
    else if !stored.effectiveContractHash.Missing? && stored.effectiveContractHash != stored.contractHash then Diverged
    else if stored.contractHash != current.contractHash then Stale
    else Match(Truthy(stored.auditHash) && Truthy(current.auditHash) && stored.auditHash != current.auditHash)
  }

  function CompareResolvedSpecIdentity(stored: Identity, current: Resolution, versioned: bool): Verdict {
    match current
    case ContestedOwners(_) => Contested
    case Found(identity) => CompareSpecIdentity(stored, identity, versioned)
  }

  predicate MayConsume(v: Verdict) {
    v.Match? || v.UnknownLegacy?
  }

  /** The authoritative hash and the one in hand, when they differ. */
  function DetectInHandDivergence(hash: Hash, inHand: string, authoritativeHash: Option<string>)
    : Option<(string, string)>
  {
    if authoritativeHash.None? || authoritativeHash.value == "" then None
    else if hash(Contract(inHand)) == authoritativeHash.value then None
    else Some((authoritativeHash.value, hash(Contract(inHand))))
  }

  // ---------------------------------------------------------------------
  // When a record is consumable

  /** Whatever a record holds: it is consumable exactly when it predates stamping,
      or when it and the authority are well formed, agree, and the record does not
      say it was built from something else. */
  lemma {:induction false} ConsumableExactly(stored: Identity, current: Resolution, versioned: bool)
    ensures MayConsume(CompareResolvedSpecIdentity(stored, current, versioned)) <==>
            current.Found? &&
            ((stored == NoIdentity && !versioned) ||
             (WellFormed(stored) && WellFormed(current.identity) &&
              stored.contractHash == current.identity.contractHash &&
              stored.effectiveContractHash in {Missing, stored.contractHash}))
  {
  }

  /** Why a record is refused, whatever it holds: the first of these that applies. */
  lemma {:induction false} RefusalsExactly(stored: Identity, current: Resolution, versioned: bool)
    ensures
      var v := CompareResolvedSpecIdentity(stored, current, versioned);
      var sound := current.Found? && WellFormed(stored) && WellFormed(current.identity);
      var builtElsewhere := WellFormed(stored) && stored.effectiveContractHash !in {Missing, stored.contractHash};
      && (v == Contested <==> current.ContestedOwners?)
      && (v == UnknownLegacy <==> current.Found? && stored == NoIdentity && !versioned)
      && (v == Unverifiable <==> current.Found? && !sound && !(stored == NoIdentity && !versioned))
      && (v == Diverged <==> sound && builtElsewhere)
      && (v == Stale <==> sound && !builtElsewhere && stored.contractHash != current.identity.contractHash)
  {
  }

  /** What a stamp records: the hash of the contract, of the exact text, and, where
      they are given, of the contracts in hand and as enriched. */
  lemma {:induction false} StampRecords(hash: Hash, content: string, inHand: string, enriched: string)
    requires Faithful(hash)
    ensures
      var stamp := ComputeSpecIdentity(hash, content, Some(inHand), Some(enriched));
      && stamp.contractHash == Text(hash(Contract(content))) && stamp.auditHash == Text(hash(content))
      && stamp.effectiveContractHash == Text(hash(Contract(inHand)))
      && stamp.enrichedContractHash == Text(hash(Contract(enriched)))
      && ComputeSpecIdentity(hash, content, None, None) ==
         stamp.(effectiveContractHash := Missing, enrichedContractHash := Missing)
  {
  }

  /** A stamped record is consumable exactly when the contracts in hand, stamped
      and current coincide. */
  lemma {:induction false} StampConsumableExactly(hash: Hash, stamped: string, inHand: Option<string>,
                                                  enriched: Option<string>, now: string, versioned: bool)
    requires Faithful(hash)
    ensures var stored := ComputeSpecIdentity(hash, stamped, inHand, enriched);
            var current := Found(ComputeSpecIdentity(hash, now, None, None));
            MayConsume(CompareResolvedSpecIdentity(stored, current, versioned)) <==>
              Contract(now) == Contract(stamped) &&
              (inHand.Some? ==> Contract(inHand.value) == Contract(stamped))
  {
    ConsumableExactly(ComputeSpecIdentity(hash, stamped, inHand, enriched),
                      Found(ComputeSpecIdentity(hash, now, None, None)), versioned);
    assert hash(Contract(now)) != "" && hash(Contract(stamped)) != "";
  }

  /** The audit and enriched hashes, on either side and however malformed, decide
      nothing. */
  lemma {:induction false} AuditDecidesNothing(stored: Identity, current: Identity, versioned: bool,
                                               a: Field, e: Field, a': Field, e': Field)
    requires stored.Identity? && current.Identity?
    ensures MayConsume(CompareSpecIdentity(stored.(auditHash := a, enrichedContractHash := e),
                                           current.(auditHash := a', enrichedContractHash := e'), versioned)) <==>
            MayConsume(CompareSpecIdentity(stored, current, versioned))
  {
  }

  /** The operational-only flag tells a bookkeeping change from none. */
  lemma {:induction false} OperationalOnlyExactly(hash: Hash, stamped: string, now: string, versioned: bool)
    requires Faithful(hash)
    ensures CompareSpecIdentity(ComputeSpecIdentity(hash, stamped, None, None),
                                ComputeSpecIdentity(hash, now, None, None), versioned) == Match(true) <==>
            Contract(stamped) == Contract(now) && stamped != now
  {
  }

  // ---------------------------------------------------------------------
  // End to end, over the spec's text

  /** For any three texts: an artifact built from the one in hand and stamped with
      the second may be consumed under the third exactly when all three keep the
      same lines, up to blanks at line ends and blank lines at the end. */
  lemma {:induction false} ConsumableByLinesExactly(hash: Hash, stamped: string, inHand: string,
                                                    enriched: Option<string>, now: string, versioned: bool)
    requires Faithful(hash)
    ensures var stored := ComputeSpecIdentity(hash, stamped, Some(inHand), enriched);
            var current := Found(ComputeSpecIdentity(hash, now, None, None));
            MayConsume(CompareResolvedSpecIdentity(stored, current, versioned)) <==>
              ContractLines(SplitLines(now)) == ContractLines(SplitLines(stamped)) ==
              ContractLines(SplitLines(inHand))
  {
    StampConsumableExactly(hash, stamped, Some(inHand), enriched, now, versioned);
    ContractsEqualExactly(now, stamped);
    ContractsEqualExactly(inHand, stamped);
  }

  /** Bookkeeping writes of any number and kind leave a stamped artifact
      consumable. */
  lemma {:induction false} BookkeepingKeepsConsumable(hash: Hash, stamped: string, now: string, versioned: bool,
                                                      versions: seq<seq<string>>)
    requires Faithful(hash) && BookkeepingHistory(versions)
    requires versions[0] == SplitLines(stamped) && versions[|versions| - 1] == SplitLines(now)
    ensures CompareSpecIdentity(ComputeSpecIdentity(hash, stamped, Some(stamped), None),
                                ComputeSpecIdentity(hash, now, None, None), versioned) == Match(stamped != now)
  {
    HistoryKeepsContract(versions, |versions| - 1);
    assert Contract(stamped) == Contract(now);
  }

  /** A real amendment of one kept line makes it stale. */
  lemma {:induction false} AmendmentIsStale(hash: Hash, stamped: string, now: string, versioned: bool, i: nat)
    requires Faithful(hash) && MaterialRewrite(SplitLines(stamped), SplitLines(now), i)
    ensures CompareSpecIdentity(ComputeSpecIdentity(hash, stamped, Some(stamped), None),
                                ComputeSpecIdentity(hash, now, None, None), versioned) == Stale
  {
    AmendmentMovesContract(SplitLines(stamped), SplitLines(now), i);
    ContractsEqualExactly(stamped, now);
    MovedIsStale(hash, stamped, now, versioned);
  }

  lemma {:induction false} MovedIsStale(hash: Hash, stamped: string, now: string, versioned: bool)
    requires Faithful(hash) && Contract(stamped) != Contract(now)
    ensures CompareSpecIdentity(ComputeSpecIdentity(hash, stamped, Some(stamped), None),
                                ComputeSpecIdentity(hash, now, None, None), versioned) == Stale
  {
  }

  /** The check before a build passes exactly when a record stamped from that build
      would not be born diverged. */
  lemma {:induction false} InHandCheckExactly(hash: Hash, authority: string, inHand: string, enriched: Option<string>)
    requires Faithful(hash)
    ensures DetectInHandDivergence(hash, inHand, Some(hash(Contract(authority)))).None? <==>
            MayConsume(CompareSpecIdentity(ComputeSpecIdentity(hash, authority, Some(inHand), enriched),
                                           ComputeSpecIdentity(hash, authority, None, None), true))
    ensures DetectInHandDivergence(hash, inHand, Some(hash(Contract(authority)))).None? <==>
            Contract(inHand) == Contract(authority)
  {
  }
}
