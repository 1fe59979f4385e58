# Lunarys Bridge: a verified model

This project models, in Dafny, the parts of the bridge whose behaviour is decided by arithmetic, text
or the order of events, and proves what they promise for all inputs and all histories.

* `Prelude`, `Arithmetic`, `Sums`, `Digits`, `JsText` hold what the rest is built on: fixed-width
  integers, floor division, sums over maps, positional notation and the JavaScript string operations.
* `Fees`, `BridgeModel`, `Bridge`, `Accounting`, `Runs`, `Progress`, `Admission` are the Solana
  program. `Bridge` has the handlers as methods that change accounts step by step, and is proved to
  commit exactly the outcome that `BridgeModel` gives for each instruction; a failed instruction is
  rolled back. `Accounting` says what one instruction does to bonds, lamports, tokens and
  obligations. `Runs` is about whole histories: any sequence of transactions by anyone, with any
  arguments, failing ones included. `Progress` says what can still be finalised, one request at a
  time and all together, and `Admission` which instructions are accepted and what error refuses the
  others.
* `Decimals`, `CrossChain` convert amounts between the chains and give the solver's margin.
* `DecimalText` has the two parsers and the printer of human amounts; `HumanAmounts` says what the
  conversions between the chains do to the amounts that people read.
* `ArgTypes` splits the parameter types out of a signature.
* `AddressCodec` turns addresses into bytes, big integers and 64-bit words.
* `FhevmHook` is the asynchronous life of the `useFhevm` hook under any schedule.

How the ledger is modelled:

* A request is keyed by owner and id, a bond vault by id alone, so owners who chose the same id share
  a vault. Token accounts are keyed by owner and mint: one escrow per mint.
* The escrow account of an SPL deposit and the mint of a settlement are arguments, because the handlers
  accept any. `Runs.SurplusKeptIff` shows that depositing into the program's own escrow and settling in
  the deposited mint is exactly what keeps the books of every mint,
  `Runs.BooksBalanceIff` says the same of whole runs, and `Runs.UnfundedDeposit` gives the instruction
  with which they fail. A delivery may name any recipient, the program itself included.
* Solvers, depositors and the relayer sign, so they are wallets, never program accounts.
* The program's account of wrapped SOL can be closed by a delivery. Anyone may create it again, so a
  history may contain that step besides the program's instructions.
* Balances are unbounded numbers; `Runs.BalancesStayBounded` shows that they never exceed the total at
  the start, so 64-bit additions cannot overflow. Amounts, times and configuration values have the
  widths of the program.
* The clock reading is an argument of each transaction; results that need time to pass ask for
  readings that do not decrease.

Where the code and its comments or documentation differ, the model follows the code:

* `state/config.rs` gives ranges for `fee_bps` and `slash_bps` that nothing enforces, and
  `claim_window_secs` may be negative. The results hold for every value, or say for which.
* `destination-decrypt.service.ts` announces a twenty-byte address, but keeps the last sixteen of
  sixty-four hexadecimal digits, which is the first word alone (`AddressCodec.ResolveDestination`);
  `AddressCodec.FirstWordIsAddressIff` says when the two have the same value.
* `release_sol.rs` says that an escrow emptied by the delivery is closed, but it tests the balance read
  before the transfer. `Runs.EmptyClosesIff` says exactly when the comment is right, and
  `Runs.EmptiedStaysOpen` shows a delivery after which it is not.
* `verify_and_settle.rs` has errors for finalised and for unclaimed requests, but compares the solver's
  token account with the cleared solver before. `Admission.SettleAnswer` says that a token account of
  any key but the default one gets the error for an invalid owner instead.
* `toBaseUnits` passes what it assembles to `BigInt`, so besides decimals it takes literals such as
  `0x1f` and scales them by powers of their own base (`DecimalText.LiteralForms`).

The main results are `Runs.BondLedger`, `Runs.Conservation`, `Runs.BystandersNeverLose`,
`Runs.BooksBalanceIff`, `Runs.PayoutsCovered`, `Runs.SettlementPaysLatestClaim`,
`Runs.PaidEqualsLocked`, `Runs.WindowsDisjoint`, `Runs.ClaimFate`, `Progress.FinalisableIff`,
`Progress.NobodyStuck`, `Progress.AllFinalisableIff`, `Admission.SettleAnswer`, `Fees.FeeMonotone`,
`Fees.NetMonotoneIff`, `Decimals.RoundTrip`, `Decimals.SplittingNeverGains`,
`CrossChain.SolverMargin`, `HumanAmounts.ConversionKeepsNumber`, `HumanAmounts.ConversionShows`,
`DecimalText.ParsersAgree`, `DecimalText.PrintThenParse`, `DecimalText.ParseThenPrint`,
`ArgTypes.ParseInvertsJoin`, `AddressCodec.BytesRoundTrip`, `AddressCodec.EthAddressTo4U64`,
`AddressCodec.ReassembleWords`, `FhevmHook.InstanceShownIff` and `FhevmHook.DisplayIs`.

## Model
| member | source | states |
|---|---|---|
| Fees.ComputeFee | contracts/programs/contracts/src/instructions/deposit.rs:119-132 | the branch-by-branch fee is the one `FeeShare` describes; fee and net add up to the amount, the cast loses nothing and neither fallback is taken |
| Fees.FeeShare | contracts/programs/contracts/src/instructions/deposit.rs:119-130 | what the fee is, as an if-and-only-if read off amount and configuration: half an amount the limits would eat, otherwise a limit or the floor of amount times rate over 10000 |
| Fees.FeeInBand | contracts/programs/contracts/src/instructions/deposit_sol.rs:102-113 | corollary: between the limits, below a rate of 100%, the fee is the floor of that share |
| Fees.Fee | contracts/programs/contracts/src/instructions/deposit_sol.rs:102-115 | the fee never exceeds the maximum, and takes the whole amount only when that is zero |
| Fees.FeeMonotone | contracts/programs/contracts/src/instructions/deposit.rs:119-130 | a larger deposit never pays a smaller fee, under any configuration |
| Fees.AffordableUpwards | contracts/programs/contracts/src/instructions/deposit.rs:128-130 | the amounts above their clamped fee are closed upwards |
| Fees.NetMonotoneIff | contracts/programs/contracts/src/instructions/deposit.rs:119-132 | exactly under which configurations a larger deposit never forwards less: a threshold of at most two units, or one no deposit can exceed |
| Fees.NetMonotoneOnSides | contracts/programs/contracts/src/instructions/deposit.rs:119-132 | between two amounts on one side of the threshold the larger always forwards at least as much, for any bps |
| Fees.AffordableIff | contracts/programs/contracts/src/instructions/deposit.rs:128-130 | the threshold read off the configuration is exactly where the clamped fee starts to fit |
| Fees.NetAtThreshold | contracts/programs/contracts/src/instructions/deposit.rs:128-132 | the failing pair of every configuration: the threshold forwards its half, one unit more forwards one unit |
| Fees.NetCanDrop | contracts/programs/contracts/src/instructions/deposit.rs:128-132 | a concrete flat fee under which depositing more forwards less |
| BridgeProgram.Bridge.constructor | contracts/programs/contracts/src/instructions/config_init.rs:20-40 | `init_config` sets every value and makes the payer owner; no request exists yet |
| BridgeProgram.Bridge.DepositAndQueue | contracts/programs/contracts/src/instructions/deposit.rs:106-201 | commits exactly the SPL deposit of the ledger model, or fails with its error and changes nothing |
| BridgeProgram.Bridge.DepositSolAndQueue | contracts/programs/contracts/src/instructions/deposit_sol.rs:89-190 | the same for the deposit that wraps SOL |
| BridgeProgram.Bridge.ClaimBridge | contracts/programs/contracts/src/instructions/claim_bridge.rs:93-169 | commits exactly the claim or takeover, rolling the bond transfer back when the deadline overflows |
| BridgeProgram.Bridge.ReleaseExpiredClaim | contracts/programs/contracts/src/instructions/release_expired_claim.rs:51-134 | commits exactly the release: debit of the vault, conditional credits of collector and solver, cleared claim |
| BridgeProgram.Bridge.VerifyAndSettle | contracts/programs/contracts/src/instructions/verify_and_settle.rs:81-167 | commits exactly the settlement, rolling the token transfer back when the vault is short |
| BridgeProgram.Bridge.DeliverTokens | contracts/programs/contracts/src/instructions/release_spl.rs:60-94 | commits exactly the delivery of SPL tokens |
| BridgeProgram.Bridge.DeliverTokensSol | contracts/programs/contracts/src/instructions/release_sol.rs:62-106 | commits exactly the delivery of wrapped SOL, closing the escrow by the balance loaded before the transfer |
| BridgeProgram.Bridge.ChangeConfig | contracts/programs/contracts/src/instructions/config_set.rs:18-49 | commits exactly the optional updates |
| BridgeProgram.Bridge.Execute | contracts/programs/contracts/src/lib.rs:255-319 | each of these entry points, and the deposits and deliveries of lines 153-228, is one step of a history of `Runs` |
| Accounting.StepKeepsWellFormed | contracts/programs/contracts/src/instructions/claim_bridge.rs:111-139 | claimed requests are open and bonded, unclaimed ones hold no solver, deadline or bond, gross amounts fit 64 bits |
| Accounting.RequestFrame | contracts/programs/contracts/src/instructions/config_set.rs:27-48 | terms never change, finalised is absorbing, and a live claim changes only by its settlement, whatever the configuration |
| Accounting.Lifecycle | contracts/programs/contracts/src/instructions/verify_and_settle.rs:90-148 | only a deposit opens a request, with its gross amount split into net and the fee of that day's rate and limits, and only a settlement closes one |
| Accounting.BondStep | contracts/programs/contracts/src/instructions/claim_bridge.rs:120-139 | recorded bonds and vault lamports move by the same flow at every instruction |
| Accounting.StepConserves | contracts/programs/contracts/src/instructions/release_expired_claim.rs:72-118 | no instruction creates or destroys lamports or tokens, also when solver and collector coincide |
| Accounting.SurplusStep | contracts/programs/contracts/src/instructions/verify_and_settle.rs:103-126 | the exact effect of every instruction on escrow minus obligations, mint by mint |
| Accounting.TokensStep | contracts/programs/contracts/src/instructions/verify_and_settle.rs:103-126 | the exact effect of every instruction on every token account, also when source and target coincide |
| Accounting.LamportsStep | contracts/programs/contracts/src/instructions/release_expired_claim.rs:84-112 | the exact effect of every instruction on every wallet and vault |
| Runs.RequestPersists | contracts/programs/contracts/src/instructions/deposit.rs:149-161 | over any run a request is never lost, keeps its terms, and once finalised is never touched |
| Runs.RequestShape | contracts/programs/contracts/src/instructions/release_expired_claim.rs:114-118 | over any run an unclaimed request, released, settled or new, has the default solver, no deadline and no bond; a claimed one is open and bonded |
| Runs.BondLedger | contracts/programs/contracts/src/instructions/claim_bridge.rs:111-139 | over any run posted bonds are held, returned, refunded, slashed or left behind, and the shared vault is its opening balance plus held plus left behind |
| Runs.ClaimFate | contracts/programs/contracts/src/instructions/claim_bridge.rs:111-139 | over any run a claim still stands, or exactly one later event ended it: a settlement in time returned its bond, a late release split it, or a late takeover left it in the vault |
| Runs.LeftBehindStays | contracts/programs/contracts/src/instructions/claim_bridge.rs:120-139 | the vault never falls below its opening balance plus all that takeovers have left behind so far |
| Runs.VaultCoversBonds | contracts/programs/contracts/src/instructions/release_expired_claim.rs:84-94 | the shared vault always holds the bond of every standing claim |
| Runs.ReleaseSucceedsIff | contracts/programs/contracts/src/instructions/release_expired_claim.rs:55-94 | in reachable states, exactly when a release succeeds; the vault and zero-bond checks never decide |
| Runs.SlashFits | contracts/programs/contracts/src/instructions/release_expired_claim.rs:72-82 | exactly for which bonds and rates the split does not abort; always up to 10000 bps |
| Runs.ReleaseSplitsBond | contracts/programs/contracts/src/instructions/release_expired_claim.rs:84-112 | the bond leaves the vault, the collector gains the floor of its share and the solver the rest, or one account both |
| Runs.SettleSucceedsIff | contracts/programs/contracts/src/instructions/verify_and_settle.rs:90-141 | in reachable states, exactly when a settlement succeeds; neither overflow nor a short vault can stop it |
| Runs.Conservation | contracts/programs/contracts/src/instructions/release_expired_claim.rs:84-112 | over any run total lamports and the supply of every mint are constant |
| Runs.BalancesStayBounded | contracts/programs/contracts/src/instructions/release_expired_claim.rs:96-112 | no balance ever exceeds the opening total |
| Runs.BystandersNeverLose | contracts/programs/contracts/src/instructions/claim_bridge.rs:18-21 | over any run a wallet that signs nothing loses neither lamports nor tokens |
| Runs.OnlySignersPay | contracts/programs/contracts/src/instructions/claim_bridge.rs:120-130 | a wallet loses only by a deposit or claim it signed, and exactly the amount or the bond |
| Runs.EscrowGuarded | contracts/programs/contracts/src/instructions/release_spl.rs:13-15 | over any run the owner stays the same, and nothing leaves an escrow and nothing is reconfigured without that signature |
| Runs.OnlyOwnerConfigures | contracts/programs/contracts/src/instructions/config_set.rs:6-14 | `set_config` succeeds exactly if the owner signs it, and nothing else changes the configuration |
| Runs.SetConfigLaws | contracts/programs/contracts/src/instructions/config_set.rs:27-48 | corollary: every configuration can be set, the owner excepted, and later updates win field by field |
| Runs.SurplusKeptIff | contracts/programs/contracts/src/instructions/deposit.rs:32-36 | apart from deliveries, an instruction keeps the surplus of every mint if and only if it is routed to the program's escrow and the deposited mint |
| Runs.BooksBalanceIff | contracts/programs/contracts/src/instructions/verify_and_settle.rs:40-45 | over any run every surplus is the opening balance minus deliveries, throughout, if and only if all successful instructions were so routed |
| Runs.UnfundedDeposit | contracts/programs/contracts/src/instructions/deposit.rs:32-36 | where that fails: in any reachable state a deposit into another escrow is accepted and lowers the surplus by its amount |
| Runs.Solvency | contracts/programs/contracts/src/instructions/release_spl.rs:60-85 | over a well-routed run the surplus is the opening balance minus what was delivered |
| Runs.PayoutsCovered | contracts/programs/contracts/src/instructions/verify_and_settle.rs:103-126 | so while deliveries stay within the opening balance every open request can be paid in full |
| Runs.DepositOf | contracts/programs/contracts/src/instructions/deposit.rs:45-52 | every request comes from exactly one deposit and records its gross amount, fee, mint and time |
| Runs.ClaimBehind | contracts/programs/contracts/src/instructions/claim_bridge.rs:133-139 | a standing claim has the solver, bond and deadline of one earlier claim, untouched since |
| Runs.SettlementPaysLatestClaim | contracts/programs/contracts/src/instructions/verify_and_settle.rs:91-148 | a settlement pays the gross deposit and the bond to the solver of the latest claim, inside its window |
| Runs.PaidAtMostOnce | contracts/programs/contracts/src/instructions/verify_and_settle.rs:91-144 | no run settles a request twice |
| Runs.PaidEqualsLocked | contracts/programs/contracts/src/instructions/verify_and_settle.rs:103-148 | over any run a request has paid out nothing before it is finalised and exactly its deposit afterwards |
| Runs.WindowsDisjoint | contracts/programs/contracts/src/instructions/claim_bridge.rs:112-138 | no two claims on a request are ever open at the same time, across takeovers, releases and window changes |
| Progress.NeverStuck | contracts/programs/contracts/src/instructions/verify_and_settle.rs:90-148 | an open request its escrow can pay is finalised by one settlement, or by a claim and a settlement, after reopening a closed wrapped-SOL escrow |
| Progress.StuckWithoutWindow | contracts/programs/contracts/src/instructions/claim_bridge.rs:117-138 | with no live claim and no bond required, a negative window or one that overflows the clock, no run without `set_config` finalises it |
| Progress.FinalisableIff | contracts/programs/contracts/src/instructions/claim_bridge.rs:111-138 | with a funded solver and a covered payout, some history without `set_config` finalises a request exactly if its claim is live or the configuration usable |
| Progress.NobodyStuck | contracts/programs/contracts/src/instructions/verify_and_settle.rs:90-148 | with covered escrows, one solver with one bond and the relayer finalise all open requests, in at most two steps each plus one reopening; the escrows keep exactly their surplus |
| Progress.AllFinalisableIff | contracts/programs/contracts/src/instructions/claim_bridge.rs:111-138 | with covered escrows and a funded solver, some history without `set_config` finalises all requests exactly if every open one has a live claim or the configuration is usable |
| Runs.ClosedIff | contracts/programs/contracts/src/instructions/release_sol.rs:85-96 | the wrapped-SOL escrow is closed exactly by a successful delivery out of an escrow that was already empty, and opened by nothing else than creating it |
| Runs.EmptyClosesIff | contracts/programs/contracts/src/instructions/release_sol.rs:85-96 | "closed if nothing is left" holds exactly unless the delivery takes out all of a non-empty escrow |
| Runs.EmptiedStaysOpen | contracts/programs/contracts/src/instructions/release_sol.rs:68-86 | a delivery of everything to a wallet, after which the empty escrow is still open |
| Runs.ClosedIsEmpty | contracts/programs/contracts/src/instructions/release_sol.rs:85-96 | over any run a closed escrow holds nothing |
| Admission.DepositAnswer | contracts/programs/contracts/src/instructions/deposit.rs:22-52 | exactly when an SPL deposit is accepted, and which error refuses it otherwise |
| Admission.DepositSolAnswer | contracts/programs/contracts/src/instructions/deposit_sol.rs:118-145 | the same for a deposit of SOL |
| Admission.ClaimAnswer | contracts/programs/contracts/src/instructions/claim_bridge.rs:110-138 | in reachable states, exactly when a claim is accepted, and the error of a finalised or live request, a missing bond, a poor solver and an overflowing window |
| Admission.ReleaseAnswer | contracts/programs/contracts/src/instructions/release_expired_claim.rs:55-86 | in reachable states, exactly when a release is accepted and which error refuses it; two of its checks never decide |
| Admission.SettleAnswer | contracts/programs/contracts/src/instructions/verify_and_settle.rs:49-101 | in reachable states, exactly when a settlement is accepted and which error refuses it; finalised and unclaimed requests are named as such only to the default key |
| Admission.DeliverAnswer | contracts/programs/contracts/src/instructions/release_spl.rs:13-65 | exactly when either delivery is accepted, and which error refuses it |
| Admission.Unauthorized | contracts/programs/contracts/src/instructions/config_set.rs:13-13 | everyone but the owner is refused, with the error of the constraint |
| Admission.Unknown | contracts/programs/contracts/src/instructions/claim_bridge.rs:30-35 | instructions on a request nobody deposited cannot be made |
| Decimals.ConversionsAgree | node/src/common/token-mapping.service.ts:65-77 | the node's code (also inline in both bridge processors) and the relayer's are the same rescaling, for all amounts and decimals |
| Decimals.RoundTrip | relayer/src/common/config/token-mapping.ts:25-39 | there and back returns the largest representable amount below: exact, or short by less than one unit, and stable afterwards |
| Decimals.SplittingNeverGains | node/src/bridge-sol-to-evm/services/bridge-processor.service.ts:84-89 | converting in any number of parts never yields more than converting the whole, and less by fewer units than parts |
| HumanAmounts.ConversionKeepsNumber | node/src/common/token-mapping.service.ts:65-77 | converting the base units of a decimal number gives its base units in the other decimals, exactly unless digits cut off before reappear and are not all zero |
| HumanAmounts.ConversionShows | frontend/lib/bridge/utils.ts:39-45 | an amount is shown as the same decimal number after a conversion, less the digits the other side has no room for |
| CrossChain.SolverMargin | node/src/bridge-sol-to-evm/services/bridge-processor.service.ts:84-95 | payout minus the value delivered on the other chain is the fee of the deposit plus dust below one unit |
| DecimalText.ParsersAgree | frontend/app/bridge/page.tsx:136-143 | the strict parser accepts only written amounts between blanks, and both parsers read them as the floor of the exact value times the power of ten |
| DecimalText.StrictParse | frontend/app/bridge/page.tsx:136-143 | the strict parser accepts every written amount, with any blanks around it |
| DecimalText.LaxForms | frontend/lib/bridge/utils.ts:31-36 | the lax parser also reads missing parts and ignores what follows a second dot, between any blanks |
| DecimalText.SignedForms | frontend/lib/bridge/utils.ts:31-36 | it takes a sign, and refuses one that nothing follows |
| DecimalText.LiteralForms | frontend/lib/bridge/utils.ts:33-35 | it takes literals in base sixteen, eight or two and scales them by powers of that base |
| JsText.BigIntOfBlanks | frontend/lib/bridge/utils.ts:35-35 | corollary: `BigInt` reads blank text as zero |
| JsText.SpaceIff | frontend/lib/bridge/utils.ts:32-32 | white space is the listed characters and no others |
| JsText.TrimBlanks | frontend/lib/bridge/utils.ts:32-32 | blanks around a text make no difference |
| JsText.TrimmedOff | frontend/lib/bridge/evm/error.ts:90-90 | what is trimmed off is blank and leaves no blank at either end |
| DecimalText.PrintThenParse | frontend/lib/bridge/utils.ts:31-45 | printing then parsing is the identity, through either parser, and the print is canonical |
| DecimalText.ParseThenPrint | frontend/lib/bridge/utils.ts:39-45 | parsing then printing is the identity on canonical text |
| DecimalText.CanonicalUnique | frontend/lib/bridge/utils.ts:39-45 | each number has one canonical text |
| ArgTypes.ParseArgTypes | frontend/lib/bridge/evm/error.ts:86-109 | the loop lists the trimmed top-level pieces of what the parentheses enclose |
| ArgTypes.UnsplitIff | frontend/lib/bridge/evm/error.ts:97-105 | a piece may hold a comma exactly where the parentheses before it do not balance; nothing else counts |
| ArgTypes.JoinOfPieces | frontend/lib/bridge/evm/error.ts:93-107 | splitting loses nothing, on any text |
| ArgTypes.PiecesOfJoin | frontend/lib/bridge/evm/error.ts:93-107 | splitting finds exactly the pieces that were joined |
| ArgTypes.PiecesWellSplit | frontend/lib/bridge/evm/error.ts:93-107 | the pieces of any text have no top-level comma and all but the last close their parentheses |
| ArgTypes.ParseInvertsJoin | frontend/lib/bridge/evm/error.ts:86-109 | parsing a signature inverts joining, for any well split pieces, whatever precedes the first and follows the last parenthesis |
| ArgTypes.ListedIs | frontend/lib/bridge/evm/error.ts:101-107 | the list has every piece, trimmed, but for a blank last one |
| ArgTypes.NoParentheses | frontend/lib/bridge/evm/error.ts:87-89 | without an opening and a later closing parenthesis the list is empty |
| ArgTypes.TypesRoundTrip | frontend/lib/bridge/evm/error.ts:86-109 | a list of types comes back unchanged, whatever blanks are around each, the empty list included |
| ArgTypes.TupleIsType | frontend/lib/bridge/evm/error.ts:97-105 | tuples of balanced types are such types, so the round trip reaches every depth |
| AddressCodec.DecodeToBigInt | frontend/providers/fhevm-bridge-provider.tsx:80-90 | 32 bytes become the number they denote, other lengths are refused |
| AddressCodec.BigIntToBytes32 | node/src/fhe/fheDescrypt.ts:288-299 | the loop fills in the leading 32 bytes of the number |
| AddressCodec.BytesRoundTrip | node/src/fhe/fheDescrypt.ts:288-299 | any 32 bytes, turned into a number and back by the code, are the same bytes |
| AddressCodec.Leading32Keeps | node/src/fhe/fheDescrypt.ts:290-296 | number to bytes to number is the identity exactly for numbers of at most 256 bits |
| AddressCodec.EthAddressTo4U64 | frontend/lib/bridge/solana/evm.ts:15-35 | an address is accepted exactly when it is 40 hexadecimal digits of either case, with or without prefix and blanks, and its four words recombine to it in either layout |
| AddressCodec.WrittenAddress | frontend/lib/bridge/solana/evm.ts:15-17 | every such text is read as its digits |
| AddressCodec.AcceptedAddress | frontend/lib/bridge/solana/evm.ts:16-17 | and nothing else is accepted |
| AddressCodec.U64LE | frontend/lib/bridge/solana/evm.ts:2-7 | the eight bytes are the number modulo 2^64, least significant first |
| AddressCodec.Encode4U64LE | frontend/lib/bridge/solana/evm.ts:37-39 | each of the four words can be read back from its own bytes |
| AddressCodec.OrAboveAdds | node/src/bridge-sol-to-evm/services/destination-decrypt.service.ts:64-67 | OR-ing bits above all set ones adds them |
| AddressCodec.MaskIsRemainder | node/src/bridge-sol-to-evm/services/destination-decrypt.service.ts:66-66 | masking with ones is the remainder by a power of two |
| AddressCodec.ReassembleWords | node/src/bridge-sol-to-evm/services/destination-decrypt.service.ts:64-67 | masks, shifts and ORs make the sum of the four words cut to 64 bits, the first lowest |
| AddressCodec.FirstWordIsAddressIff | node/src/bridge-sol-to-evm/services/destination-decrypt.service.ts:62-71 | the first word is the low 160 bits of the whole number exactly if the second word and the low half of the third are zero |
| AddressCodec.ResolveDestination | node/src/bridge-sol-to-evm/services/destination-decrypt.service.ts:62-71 | the destination text is sixteen lower-case digits with the value of the first word, so it has the low 160 bits of the whole number exactly under that condition |
| FhevmHook.FhevmState.DoRefresh | fhevm-react/useFhevm.tsx:45-70 | `refresh` aborts, blanks and adopts the new provider |
| FhevmHook.FhevmState.EnableEffect | fhevm-react/useFhevm.tsx:77-79 | the effect of `enabled` sets the running flag and nothing else |
| FhevmHook.FhevmState.MainEffect | fhevm-react/useFhevm.tsx:82-166 | the main effect stops, waits or starts a creation; its assertion holds |
| FhevmHook.FhevmState.Resolved | fhevm-react/useFhevm.tsx:135-150 | a result is stored only if its signal is not aborted; its assertion holds |
| FhevmHook.FhevmState.Rejected | fhevm-react/useFhevm.tsx:151-164 | likewise for a failure |
| FhevmHook.InvNext | fhevm-react/useFhevm.tsx:82-166 | every action keeps: live creations hold the current signal and provider, stored instances belong to the provider, loading waits for a live creation |
| FhevmHook.EveryScheduleKeepsInv | fhevm-react/useFhevm.tsx:45-166 | so does every schedule |
| FhevmHook.LiveSince | fhevm-react/useFhevm.tsx:109-131 | a live creation was started for the current provider and is awaited since: no refresh, stop or settlement |
| FhevmHook.AwaitedIsLive | fhevm-react/useFhevm.tsx:99-133 | and an awaited creation is live |
| FhevmHook.StartShows | fhevm-react/useFhevm.tsx:99-133 | a running hook with a provider starts a creation, shows loading and keeps the instance; without one it shows nothing |
| FhevmHook.AnswerShows | fhevm-react/useFhevm.tsx:135-164 | an awaited creation that resolves is on display, ready; one that is rejected shows its error |
| FhevmHook.DisplayStays | fhevm-react/useFhevm.tsx:135-164 | the display stays until an answer, a refresh or a stop; a new creation changes only status and error |
| FhevmHook.DisplayIs | fhevm-react/useFhevm.tsx:45-164 | status and error at any time are those of the latest refresh, main effect or answer |
| FhevmHook.IdleAtFirst | fhevm-react/useFhevm.tsx:33-38 | before the first main effect the hook is idle |
| FhevmHook.LatestWins | fhevm-react/useFhevm.tsx:58-79 | provider and running flag are those of the latest refresh and effect of `enabled`, and the counter counts refreshes with a provider |
| FhevmHook.InstanceIsCurrent | fhevm-react/useFhevm.tsx:135-150 | an instance on display came from an awaited creation for the provider still current |
| FhevmHook.InstanceShownIff | fhevm-react/useFhevm.tsx:82-164 | under any schedule, an instance is on display exactly if its creation resolved while awaited and no answer, refresh or stop came after |
| FhevmHook.LoadingEnds | fhevm-react/useFhevm.tsx:117-164 | corollary: when no live creation is outstanding the hook does not show loading |

## Left out
- Confidential computing: encryption, resealing, queueing and callbacks. Queued computations are taken to be accepted; they move nothing in the ledger.
- Account rules of the runtime: rent, also that returned by closing an account, derivation, ownership, and the existence of token accounts other than the escrow of wrapped SOL. A vault's opening lamports are arbitrary, and creating an account costs nothing.
- Transfers from outside the program into its accounts; the opening balances are arbitrary instead.
- The `request_id` field, which the SPL deposit does not write; the key carries the id. The encrypted words, the nonce and the events of a request.
- `init_request`, which is not an entry point of the program.
- The EVM contract, the relayer's verification service, event listeners, network calls, storage, pages and components.
- The unmapped-token branch of the node's processors, which passes the amount on unchanged.
- DecimalText.PrintThenParse: negative amounts and non-integral or negative decimals are not covered; the printer does not handle them.
- AddressCodec.BigIntToBytes32: negative numbers are not covered; the callers pass decrypted unsigned values.
- FhevmHook: the reason a creation fails and the logging are not modelled, and state setters take effect at once; an effect may run with any captured flag and any provider.
- Base58, hashing and the selectors of custom errors.
