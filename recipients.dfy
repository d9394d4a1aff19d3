/** Recipients the swap must refuse: the denylist and addresses inside a trade's route. */
module Recipients {
  import opened SwapTypes

  /** BAD_RECIPIENT_ADDRESSES: the v2 factory and the two v2 routers. */
  const BAD_RECIPIENT_ADDRESSES: seq<string> := [
    "0x5C69bEe701ef814a2B6a3EDD4B1652CB9cc5aA6f",
    "0xf164fC0Ec4E93095b804a4795bBe1e041497b92a",
    "0x7a250d5630B4cF539739dF2C5dAcb4c659F2488D"
  ]

  /** involvesAddress: some token on the path, or some pair's liquidity token, has the address. */
  predicate InvolvesAddress(trade: Trade, checksummedAddress: string)
    ensures InvolvesAddress(trade, checksummedAddress) <==>
              checksummedAddress in trade.route.path || checksummedAddress in trade.route.pairLiquidityTokens
  {
    (exists i :: 0 <= i < |trade.route.path| && trade.route.path[i] == checksummedAddress) ||
    (exists i :: 0 <= i < |trade.route.pairLiquidityTokens| && trade.route.pairLiquidityTokens[i] == checksummedAddress)
  }
}
