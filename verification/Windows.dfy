/** The records that PPLNS accounting passes on to payout construction. */
module Windows {
  import opened Basics
  import opened Shares

  datatype MinerWork = MinerWork(miner: MinerId, work: nat, payout: Option<PayoutKeys>)

  datatype Window = Window(
    requested: nat,
    covered: nat,
    included: nat,
    complete: bool,
    miners: seq<MinerWork>)

  const EMPTY_WINDOW := Window(0, 0, 0, false, [])

  /** One miner's row while it is being accumulated. */
  datatype Credit = Credit(work: nat, payout: Option<PayoutKeys>)

  /** A miner's row in the running map; a new one starts at zero. */
  function RowOf(credited: map<MinerId, Credit>, m: MinerId): Credit {
    if m in credited then credited[m] else Credit(0, None)
  }

  ghost function SumRows(rows: seq<MinerWork>): nat {
    if rows == [] then 0 else SumRows(rows[..|rows| - 1]) + rows[|rows| - 1].work
  }

  /** The canonical window holds at most this many shares. */
  const MAX_WINDOW_SHARES: nat := 31
}
