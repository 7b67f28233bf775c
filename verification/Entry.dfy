/** The vocabulary of the cache: rungs, entry states, errors, commit intents and tokens. */
module Entry {

  datatype Option<+T> = None | Some(value: T)

  datatype Result<+T> = Ok(value: T) | Err(error: CacheError)

  datatype CacheError =
    | Unauthenticated | Unauthorized | TierUnavailable | WriteIndeterminate | PolicyDenied
    | Miss | PopulationFailed | Timeout | Cancelled | StaleGeneration | WriteContended
    | SerializationFailed | ConfigurationError | CapacityExhausted | Corrupted | UncommittedIntent

  function Min(x: nat, y: nat): nat {
    if x <= y then x else y
  }

  lemma ConcatAssociates<T>(x: seq<T>, y: seq<T>, z: seq<T>)
    ensures x + (y + z) == (x + y) + z
  {
  }

  const LAST_CACHE_RUNG_INDEX: nat := 5

  const AUTHORITY_RUNG_INDEX: nat := 6

  datatype TierId = L0 | L1 | L2 | L3 | L4 | L5 | L6 {
    function Index(): (n: nat)
      ensures n <= AUTHORITY_RUNG_INDEX
    {
      match this
      case L0 => 0
      case L1 => 1
      case L2 => 2
      case L3 => 3
      case L4 => 4
      case L5 => 5
      case L6 => 6
    }

    /** Every rung but the authority is a cache rung. */
    predicate IsCacheRung()
      ensures IsCacheRung() <==> !L6?
    {
      Index() <= LAST_CACHE_RUNG_INDEX
    }

    predicate IsAuthorityRung()
      ensures IsAuthorityRung() <==> L6?
    {
      Index() == AUTHORITY_RUNG_INDEX
    }
  }

  /** The rung with a given index; `Index` is its inverse, and no other number names a rung. */
  function FromIndex(n: nat): (r: Option<TierId>)
    ensures r.Some? <==> n <= AUTHORITY_RUNG_INDEX
    ensures r.Some? ==> r.value.Index() == n
  {
    match n
    case 0 => Some(L0)
    case 1 => Some(L1)
    case 2 => Some(L2)
    case 3 => Some(L3)
    case 4 => Some(L4)
    case 5 => Some(L5)
    case 6 => Some(L6)
    case _ => None
  }

  datatype EntryState = Absent | Ready | Stale | InFlight | Prepared | Failed {
    predicate IsClaimable() {
      Absent? || Failed? || Stale?
    }
  }

  datatype IntentKind = Write | Move

  /** Identity and placement, held separately: two keys may share a placement, never a fingerprint. */
  datatype KeyAddress = KeyAddress(fingerprint: nat, placement: nat)

  datatype CommitIntent = CommitIntent(kind: IntentKind, target: nat, generation: nat, startedAt: nat)

  datatype CommitToken = CommitToken(address: KeyAddress, generation: nat, kind: IntentKind, target: nat)

  /** Only these two errors are decided before any byte is sent. */
  predicate ProvablyStoredNothing(e: CacheError) {
    e.SerializationFailed? || e.CapacityExhausted?
  }

  /**
   The contract a rung's write meets: success stores the value, an error decided before any byte was
   sent stores nothing, and any other error leaves the old content or the new.
   */
  function AfterWrite<V>(before: Option<V>, value: V, error: Option<CacheError>, landed: bool): Option<V> {
    if error.None? || (landed && !ProvablyStoredNothing(error.value)) then Some(value) else before
  }

  /** Of a failed write, only a full rung and a refused encoding leave no doubt; after any other error both contents are possible. */
  lemma OnlyTwoErrorsLeaveNoDoubt<V>(before: Option<V>, value: V, error: CacheError)
    requires before != Some(value)
    ensures AfterWrite(before, value, Some(error), true) == AfterWrite(before, value, Some(error), false)
            <==> error in [CapacityExhausted, SerializationFailed]
    ensures AfterWrite(before, value, Some(error), false) == before
    ensures forall landed :: AfterWrite(before, value, None, landed) == Some(value)
  {
  }
}
