/** What one scrape of the portal yields. */
module Portal {
  import opened Prelude

  datatype Recharge = Recharge(
    sn: real,
    token: string,
    meterRentAmount: real,
    demandChargeAmount: real,
    vatAmount: real,
    concessionAmount: real,
    rechargeAmount: real,
    usableAmount: real,
    rechargeMethod: string,
    rechargedDate: int,       // Unix epoch seconds
    rechargeStatus: string)

  datatype Snapshot = Snapshot(
    balance: real,
    balanceAsOf: Option<int>, // Unix epoch seconds of the settlement stamp
    recharges: seq<Recharge>)

  const SUCCESS := "success"
}
