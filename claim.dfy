/**
 * The per-account claim pipeline (HumanityProtocolBot.claim_rewards and
 * process_claim). Every web3 call is an answer of a `Node`: the value the
 * call returns, or `Raised` when it raises.
 */
module Claim {
  import opened Options

  /** The outcome of one call into web3 or the node. */
  datatype Call<+T> = Ok(value: T) | Raised

  type Address = string
  type RawTransaction = seq<bv8>
  type TxHash = seq<bv8>

  /** `userClaimStatus(address, epoch)`: the buffered amount and whether the
      epoch's reward was claimed. */
  datatype ClaimStatus = ClaimStatus(bufferAmount: int, claimed: bool)

  /** The call context given to `estimate_gas`. */
  datatype TxParams = TxParams(chainId: nat, from: Address, gasPrice: nat, nonce: nat)

  /** The dictionary given to `build_transaction`. */
  datatype Transaction = Transaction(chainId: nat, from: Address, gas: nat, gasPrice: nat, nonce: nat)

  /** The answers of one connected node and of the bound reward contract. */
  datatype Node = Node(
    fromKey: string -> Call<Address>,                    // eth.account.from_key(..).address
    userGenesisClaimStatus: Address -> Call<bool>,
    currentEpoch: Call<int>,
    userClaimStatus: (Address, int) -> Call<ClaimStatus>,
    getTransactionCount: Address -> Call<nat>,
    gasPrice: Call<nat>,
    chainId: Call<nat>,                                  // the node's chain id, read the same each time
    estimateGas: TxParams -> Call<nat>,                  // claimReward().estimate_gas(params)
    buildRaises: Transaction -> bool,                    // claimReward().build_transaction(tx) raises
    signTransaction: (Transaction, string) -> Call<RawTransaction>,
    sendRawTransaction: RawTransaction -> Call<TxHash>,
    waitForTransactionReceipt: TxHash -> Call<nat>)     // the receipt's block number

  /** The address logged when the error came before the address was known. */
  const UnknownAddress: string := "未知"

  /** The eligibility test: claim unless both the genesis reward and this
      epoch's reward were already claimed. */
  function ShouldClaim(genesisClaimed: bool, epochClaimed: bool): (claim: bool)
    ensures claim <==> !(genesisClaimed && epochClaimed)
  {
    (genesisClaimed && !epochClaimed) || !genesisClaimed
  }

  /** The on-chain state claim_rewards reads before deciding. */
  datatype EligibilitySnapshot =
    EligibilitySnapshot(address: Address, genesisClaimed: bool, currentEpoch: int, epochClaimed: bool)

  /** The reads of claim_rewards, in order: the address of the key, the
      genesis status, the current epoch, and the claim status for that epoch.
      None when any of them raises. */
  function ReadSnapshot(node: Node, privateKey: string): (snap: Option<EligibilitySnapshot>)
    ensures snap.Some? <==>
      node.fromKey(privateKey).Ok? &&
      node.userGenesisClaimStatus(node.fromKey(privateKey).value).Ok? &&
      node.currentEpoch.Ok? &&
      node.userClaimStatus(node.fromKey(privateKey).value, node.currentEpoch.value).Ok?
    ensures snap.Some? ==>
      Ok(snap.value.address) == node.fromKey(privateKey) &&
      Ok(snap.value.genesisClaimed) == node.userGenesisClaimStatus(snap.value.address) &&
      Ok(snap.value.currentEpoch) == node.currentEpoch &&
      node.userClaimStatus(snap.value.address, snap.value.currentEpoch).value.claimed == snap.value.epochClaimed
  {
    match node.fromKey(privateKey)
    case Raised => None
    case Ok(address) =>
      match node.userGenesisClaimStatus(address)
      case Raised => None
      case Ok(genesisClaimed) =>
        match node.currentEpoch
        case Raised => None
        case Ok(epoch) =>
          match node.userClaimStatus(address, epoch)
          case Raised => None
          case Ok(status) => Some(EligibilitySnapshot(address, genesisClaimed, epoch, status.claimed))
  }

  /** The steps of process_claim, each of which may raise. */
  datatype TxStep =
    | GetNonce | GetGasPrice | GetChainId | EstimateGas | BuildTransaction
    | SignTransaction | SendRawTransaction | WaitForReceipt

  datatype TxOutcome =
    | Confirmed(tx: Transaction, hash: TxHash, blockNumber: nat)
    | TxFailed(step: TxStep)    // logged with the sender's address

  /** The parameters a transaction shares with its gas estimate. */
  function ParamsOf(tx: Transaction): TxParams {
    TxParams(tx.chainId, tx.from, tx.gasPrice, tx.nonce)
  }

  /** Every call of process_claim answers, each with the values read before
      it: the nonce, gas price and chain id; the estimate for them; building,
      signing and sending the transaction they make; and its receipt. */
  predicate AllAnswer(node: Node, sender: Address, privateKey: string) {
    node.getTransactionCount(sender).Ok? && node.gasPrice.Ok? && node.chainId.Ok? &&
    var params := TxParams(node.chainId.value, sender, node.gasPrice.value, node.getTransactionCount(sender).value);
    node.estimateGas(params).Ok? &&
    var tx := Transaction(params.chainId, sender, node.estimateGas(params).value, params.gasPrice, params.nonce);
    !node.buildRaises(tx) &&
    node.signTransaction(tx, privateKey).Ok? &&
    node.sendRawTransaction(node.signTransaction(tx, privateKey).value).Ok? &&
    node.waitForTransactionReceipt(node.sendRawTransaction(node.signTransaction(tx, privateKey).value).value).Ok?
  }

  /** process_claim: read nonce, gas price and chain id, estimate gas with
      them, build the transaction with the same values and the estimate as
      its gas limit, sign, send, and wait for the receipt. */
  function ProcessClaim(node: Node, sender: Address, privateKey: string): (r: TxOutcome)
    ensures r.Confirmed? ==>
      r.tx.from == sender &&
      node.getTransactionCount(sender) == Ok(r.tx.nonce) &&
      node.gasPrice == Ok(r.tx.gasPrice) &&
      node.chainId == Ok(r.tx.chainId) &&
      node.estimateGas(ParamsOf(r.tx)) == Ok(r.tx.gas) &&
      !node.buildRaises(r.tx) &&
      node.signTransaction(r.tx, privateKey).Ok? &&
      node.sendRawTransaction(node.signTransaction(r.tx, privateKey).value) == Ok(r.hash) &&
      node.waitForTransactionReceipt(r.hash) == Ok(r.blockNumber)
    ensures r.Confirmed? <==> AllAnswer(node, sender, privateKey)
    ensures r == TxFailed(GetNonce) <==> node.getTransactionCount(sender).Raised?
  {
    match node.getTransactionCount(sender)
    case Raised => TxFailed(GetNonce)
    case Ok(nonce) =>
      match node.gasPrice
      case Raised => TxFailed(GetGasPrice)
      case Ok(gasPrice) =>
        match node.chainId
        case Raised => TxFailed(GetChainId)
        case Ok(chainId) =>
          match node.estimateGas(TxParams(chainId, sender, gasPrice, nonce))
          case Raised => TxFailed(EstimateGas)
          case Ok(gas) =>
            var tx := Transaction(chainId, sender, gas, gasPrice, nonce);
            if node.buildRaises(tx) then TxFailed(BuildTransaction)
            else
              match node.signTransaction(tx, privateKey)
              case Raised => TxFailed(SignTransaction)
              case Ok(raw) =>
                match node.sendRawTransaction(raw)
                case Raised => TxFailed(SendRawTransaction)
                case Ok(hash) =>
                  match node.waitForTransactionReceipt(hash)
                  case Raised => TxFailed(WaitForReceipt)
                  case Ok(block) => Confirmed(tx, hash, block)
  }

  /** What claim_rewards does for one account. */
  datatype ClaimOutcome =
    | ReadFailed(address: string)                     // error logged with the address, or "unknown"
    | AlreadyClaimed(address: Address, epoch: int)    // "already claimed" logged, nothing sent
    | Attempted(address: Address, tx: TxOutcome)      // process_claim ran

  /** claim_rewards: read the snapshot, then claim when eligible. Errors of
      the reads are caught here and logged with the address when it was
      already derived from the key. */
  function ClaimRewards(node: Node, privateKey: string): (r: ClaimOutcome)
    ensures r.ReadFailed? <==> ReadSnapshot(node, privateKey).None?
    ensures r.Attempted? <==>
      ReadSnapshot(node, privateKey).Some? &&
      !(ReadSnapshot(node, privateKey).value.genesisClaimed && ReadSnapshot(node, privateKey).value.epochClaimed)
    ensures r.Attempted? ==> r.tx == ProcessClaim(node, r.address, privateKey)
    ensures r.AlreadyClaimed? ==> r.epoch == node.currentEpoch.value
    ensures r.address == (if node.fromKey(privateKey).Ok? then node.fromKey(privateKey).value else UnknownAddress)
  {
    match ReadSnapshot(node, privateKey)
    case None =>
      ReadFailed(if node.fromKey(privateKey).Ok? then node.fromKey(privateKey).value else UnknownAddress)
    case Some(snap) =>
      if ShouldClaim(snap.genesisClaimed, snap.epochClaimed)
      then Attempted(snap.address, ProcessClaim(node, snap.address, privateKey))
      else AlreadyClaimed(snap.address, snap.currentEpoch)
  }
}
