/** Storage tiers and the bitmask that records which of them hold a file. */
module Tiers {

  datatype Tier = Local | Nas | S3

  /** The set of tiers a bitmask names; `Encode` is the byte SQLite stores. */
  type TierBitmask = set<Tier>

  const ALL_TIERS: TierBitmask := {Local, Nas, S3}

  function Mask(t: Tier): bv8 {
    match t case Local => 1 case Nas => 2 case S3 => 4
  }

  function Encode(bm: TierBitmask): bv8 {
    (if Local in bm then 1 else 0) | (if Nas in bm then 2 else 0) | (if S3 in bm then 4 else 0)
  }

  function Decode(b: bv8): TierBitmask {
    set t: Tier | t in ALL_TIERS && b & Mask(t) != 0
  }

  /** S3 is never evicted; the warmer tiers need a copy on S3. */
  predicate SafeToEvictFrom(bm: TierBitmask, t: Tier) {
    match t
    case Local => S3 in bm
    case Nas => S3 in bm
    case S3 => false
  }

  /** The tiers a file should also be on before it leaves `t`, as `safe_to_evict_from` is documented. */
  function ColderThan(t: Tier): TierBitmask {
    match t case Local => {Nas, S3} case Nas => {S3} case S3 => {}
  }

  /**
   The code meets that documentation always for the NAS, never for S3, and for the local disk exactly when
   a file on S3 is on the NAS too.
   */
  lemma SafeToEvictMeetsDoc(bm: TierBitmask, t: Tier)
    ensures (SafeToEvictFrom(bm, t) <==> ColderThan(t) <= bm) <==>
            match t
            case Local => S3 in bm ==> Nas in bm
            case Nas => true
            case S3 => false
  {
    assert {Nas, S3} <= bm <==> Nas in bm && S3 in bm;
    assert {S3} <= bm <==> S3 in bm;
  }

  /** The byte operations `set`, `clear` and `has` are the set operations, and storing loses nothing. */
  lemma BitmaskEncoding(bm: TierBitmask, t: Tier)
    ensures Encode(bm + {t}) == Encode(bm) | Mask(t)
    ensures Encode(bm - {t}) == Encode(bm) & !Mask(t)
    ensures t in bm <==> Encode(bm) & Mask(t) != 0
    ensures Decode(Encode(bm)) == bm
    ensures Encode({}) == 0 && Encode({Local}) == 1 && Encode({Nas}) == 2 && Encode({S3}) == 4
  {
    forall u: Tier ensures u in bm <==> Encode(bm) & Mask(u) != 0 {
      match u case Local => case Nas => case S3 =>
    }
    match t case Local => case Nas => case S3 =>
  }
}
