# A verified model of Erigon's RLP codec, state transition and networking core

This project models parts of the Erigon Ethereum client in Dafny and proves what they promise. `dafny verify
dfyconfig.toml` checks all of it. Nothing here is executed: every statement below is a theorem about the model.

## What is modelled

| files | part of Erigon |
|---|---|
| `RlpSpec` | the recursive definition of RLP (appendix B of the Ethereum Yellow Paper), as the reference |
| `RlpEncode`, `RlpStream`, `RlpRaw` | the flat encoding buffer with deferred list headers, the stateful stream decoder, the slice parser and list iterator |
| `World`, `GasPool`, `Authorizations`, `StateTransition`, `Block` | applying a message, EIP-7702 authorisations, gas accounting of a block |
| `Feed` | the event feed with its in-place case list |
| `Lex`, `Mux`, `ExpHeap`, `DialRun`, `Dial`, `Server` | capability matching and message-code ranges, the dial scheduler and the replay of its events, the server's run loop |
| `HashFn`, `KeyWalk`, `GasLimit` | the caching block-hash lookup, scans over a bit prefix of keys, the gas limit of the next block |
| `Words` | 64-bit and 256-bit words, with every wrap-around written out |

Code that updates state is a class whose methods are proved against functions of the old state; code that only
computes is a function. Channels, timers, the clock, random choices and goroutine interleavings are scripts of
events that a run takes as input, so that a theorem about a run is a theorem about every script. Map iteration
orders, the EVM and the header store are function parameters.

## Main results

- **RLP.** Encoding any item tree through the flat buffer fills the output array exactly and gives the recursive
  encoding. `DecodeBytes` accepts `b` with result `t` if and only if `b` is the encoding of `t`. The chunked
  reader and the writer emit the same bytes. The invariants on list positions and the byte budget hold after
  every sequence of stream calls.
- **State transition.** `TransitionDb` is characterised completely: which messages are applied, the gas used and
  the final state, as a function of the initial state and the EVM. The sum of all balances falls by exactly what
  execution destroyed, the blob fee and, after London without a burn contract, the base fee of the gas used, even
  if sender, coinbase and burn contract coincide and also with base fees disabled, as long as the balance covers the
  cost. No message is paid out more than was bought, since `NewEVM` drops the base fee of messages at price zero. In a
  block, pool gas plus gas used is the gas limit after every transaction, the pool never panics, and with EVMs that
  only move balances the sum falls by exactly the fees. Every account's balance is given, and so are the gas charged
  and the refunds of a list of authorisations.
- **Feed.** For every interleaving of ready channels, subscriptions and cancellations, `Send` delivers exactly
  once to each subscription present at its start that no event of the script cancels first; every cancellation and
  every new subscription is accounted for, and so is every offer of the fast path.
- **Networking.** Both ends of a connection compute the same table of protocols, ranges tile the codes from 16 on,
  and a code reaches the same protocol on the other side. Over every run the dial scheduler with its in-place pool does
  what a replay of the events on plain sets gives: in each turn exactly the candidates and static nodes are dialed that
  should be, never one node twice within 35 seconds. The server's peers are a function of the events sent to it: those that take place, in
  order, admit and drop connections, and the limits hold through all changes of trust.
- **Caches and scans.** The caching hash lookup equals an uncached walk on every sequence of queries. `Walk` and
  the split cursor show exactly the keys with the bit prefix. The gas limit converges.

## What turned out to be false

Each of these is stated with an input that shows it and its exact condition.

- A stream hands out `[0x81, x]` with `x < 0x80` through `Raw`, while `Split` rejects it (`RlpStream.LoneByteRaw`).
  On every other window the two agree on what is at its front (`RlpStream.RawAndSplit`).
- A loop over the list iterator ends exactly if the data is a sequence of frames. Otherwise, from the first error
  on, every call of `Next` answers true and gives the same error (`RlpRaw.Iteration`, at an input
  `RlpRaw.Malformed`).
- With base fees disabled, a message with a blob passes `preCheck` at a blob price above its cap, and the debit wraps
  around (`Transition.DisabledBaseFeeWraps`). `Transition.PassingSafeIff` says which messages cannot wrap. This is an
  input of `ApplyMessage`: the messages that `CallArgs.ToMessage` makes for RPC calls have no blob hashes
  (turbo/adapter/ethapi/api.go:165), so no `eth_call` has blob gas.
- An authority's nonce wraps around exactly if an entry takes effect with nonce 2^64-1
  (`Authorizations.NonceRises`, at a list `Authorizations.LastNonceWraps`). That each pair takes effect at most once
  holds even then.
- A peer's trusted flag can differ from the trust in its node (`Servers.StaleTrust`): exactly if the trust was
  different at its two checkpoints and has not been set since (`Servers.PeerFlag`).
- The slots for dialed and inbound peers are within the number of peers exactly if the dial ratio is not a negative
  number at most as large in size (`Servers.SlotsSplit`).
- `CalcGasLimit` never moves from parents between 1024 and 2047, and counts down from smaller ones
  (`GasLimits.Converges`, `GasLimits.BoundedIff`).

## Model

| member | source | states |
|---|---|---|
| RlpSpec.BERoundTrip | rlp/encode.go:497-552 | Big-endian bytes without leading zeros give the number back, and are empty only for zero. |
| RlpSpec.FromBERoundTrip | rlp/raw.go:164-193 | Every byte string without a leading zero is the big-endian form of its value. |
| RlpSpec.HeadUnique | rlp/decode.go:997-1057 | Two canonical frames at the start of the same bytes have the same kind and size. |
| RlpSpec.FrameUnique | rlp/raw.go:50-56 | Two canonical frames at the start of the same bytes are equal, and so is what follows. |
| RlpSpec.PrefixFree | rlp/decode.go:123-140 | No encoding is a proper prefix of another, and each encoding determines its item. |
| RlpSpec.AllInjective | rlp/decode.go:354-381 | The payload of a list determines its elements. |
| RlpEncode.Digits | rlp/encode.go:497-552 | The branch for each width writes the minimal big-endian bytes; zero writes one zero byte. |
| RlpEncode.IntSizeExact | rlp/encode.go:555-557 | The size from the bit length is the number of bytes that are written. |
| RlpEncode.HeadSizeExact | rlp/encode.go:138-143 | The announced header size is the length of the header that is written later. |
| RlpEncode.PutHead | rlp/encode.go:147-155 | Writes exactly the header of the given kind and size, and nothing else of the buffer changes. |
| RlpEncode.EncBuffer.EncodeStringHeader | rlp/encbuffer.go:65-73 | Appends the header of a string of the given size. |
| RlpEncode.EncBuffer.EncodeString | rlp/encbuffer.go:75-83 | Appends the recursive encoding of the string. |
| RlpEncode.EncBuffer.EncodeUint | rlp/encbuffer.go:85-96 | Appends the encoding of the integer as a string of its big-endian bytes. |
| RlpEncode.EncBuffer.OpenList | rlp/encbuffer.go:101-104 | A list header remembers the offset and the header bytes so far. |
| RlpEncode.EncBuffer.ListEnd | rlp/encbuffer.go:106-114 | Back-patches the payload size and adds the size of the finished header to `lhsize`. |
| RlpEncode.EncBuffer.Encode | rlp/encode.go:382-400 | An item adds its flat strings, its headers and exactly the sum of their sizes. |
| RlpEncode.EncBuffer.EncodeList | rlp/encode.go:382-400 | The same for a list between `list` and `listEnd`. |
| RlpEncode.RenderItem | rlp/encbuffer.go:120-136 | Interleaving the flat form of an item with its headers gives its recursive encoding, whatever follows. |
| RlpEncode.SizeSplit | rlp/encbuffer.go:106-118 | String bytes plus finished header sizes are the length of the recursive encoding. |
| RlpEncode.EncBuffer.ToBytes | rlp/encbuffer.go:120-136 | The array has exactly the announced size and holds the interleaving of strings and headers. |
| RlpEncode.EncBuffer.ToWriter | rlp/encbuffer.go:138-160 | Writes the same bytes; after a failing write, whatever that took, the output is a prefix of them. |
| RlpEncode.EncodeToBytes | rlp/encode.go:101-109 | The result is the recursive encoding of the item. |
| RlpEncode.EncodeTo | rlp/encode.go:72-85 | The writer receives the recursive encoding, or a prefix of it if it fails. |
| RlpEncode.EncodeToReader | rlp/encode.go:116-123 | The reader has the whole encoding ahead, and the announced size is its length. |
| RlpEncode.EncReader.Next | rlp/encbuffer.go:196-227 | Loads a piece without losing a byte; there is no piece exactly if nothing is left. |
| RlpEncode.EncReader.Read | rlp/encbuffer.go:171-192 | Delivers the next bytes of the encoding, as many as fit, and reports the end exactly when all is delivered. |
| RlpEncode.ReadChunks | rlp/encbuffer.go:164-227 | For every sequence of buffer sizes, the chunks and what is left make up the encoding; without an end every buffer was filled. |
| RlpStream.NestedAt | rlp/decode.go:848-865 | At every depth, the position plus the size of the nested list is within the size. |
| RlpStream.RoomCovered | rlp/decode.go:1115-1133 | In a limited stream, no open list can ask for more than the budget has left. |
| RlpStream.AcceptedFits | rlp/decode.go:964-995 | A value that was accepted lies entirely in the input. |
| RlpStream.PushTakePop | rlp/decode.go:848-884 | Opening a list, reading its payload and closing it consumes the payload. |
| RlpStream.Stream.constructor | rlp/decode.go:920-951 | A fresh stream satisfies the invariant; it is limited by a given limit or by a reader that knows its length. |
| RlpStream.Stream.WillRead | rlp/decode.go:1115-1133 | Accounts for the bytes exactly if list and budget allow them; otherwise nothing changes. |
| RlpStream.Stream.ReadByte | rlp/decode.go:1104-1113 | Succeeds exactly if a byte is visible, returns it and consumes it. |
| RlpStream.Stream.ReadFull | rlp/decode.go:1083-1102 | Succeeds exactly if enough bytes are visible, and returns those. |
| RlpStream.Stream.ReaderRead | rlp/decode.go:1135-1153 | Delivers what the slice has, up to the size asked for; ends exactly at its end. |
| RlpStream.Stream.ReadUint | rlp/decode.go:1059-1081 | Succeeds exactly on visible bytes without a leading zero, with their value. |
| RlpStream.Stream.ReadKind | rlp/decode.go:997-1057 | Succeeds with kind and size exactly if the visible bytes start with that header. |
| RlpStream.Stream.NextKind | rlp/decode.go:964-995 | Looks ahead without changing the window; repeated calls give the remembered answer; end of list exactly at the end of a list. |
| RlpStream.Stream.Bytes | rlp/decode.go:686-707 | Succeeds with `b` exactly if the window starts with the canonical encoding of `b`, which is consumed. |
| RlpStream.Stream.Raw | rlp/decode.go:710-732 | Returns exactly the consumed bytes, which are a frame with a minimal size field, of any value that fits. |
| RlpStream.Stream.Uint | rlp/decode.go:741-772 | Succeeds exactly on canonical integers of at most the given width. |
| RlpStream.Stream.OpenList | rlp/decode.go:848-865 | Enters exactly the lists that the window announces and keeps the invariant. |
| RlpStream.Stream.ListEnd | rlp/decode.go:869-884 | Succeeds exactly at the end of an open list and returns to the enclosing one. |
| RlpStream.Stream.DecodeItem | rlp/decode.go:557-579 | Succeeds with `t` exactly if the window starts with the encoding of `t`, which is consumed. |
| RlpStream.Stream.DecodeList | rlp/decode.go:339-352 | The same, once a list is announced. |
| RlpStream.Stream.DecodeElems | rlp/decode.go:354-381 | Succeeds with the elements exactly if they fill the list. |
| RlpStream.DecodeBytes | rlp/decode.go:123-140 | Accepts `b` with `t` if and only if `b` is the encoding of `t`; trailing bytes are reported exactly if a proper prefix is an encoding. |
| RlpStream.EncodeThenDecode | rlp/decode.go:123-140 | Decoding undoes encoding on every item. |
| RlpStream.DecodeThenEncode | rlp/encode.go:101-109 | Encoding undoes decoding; rejected inputs are exactly those that encode nothing. |
| RlpStream.RawAndSplit | rlp/raw.go:50-56 | On every window `Raw` and `Split` find the same frame at the front, except for a single byte below 0x80 behind a string header, which only `Raw` accepts. |
| RlpStream.LoneByteRaw | rlp/decode.go:710-732 | At such a byte `Raw` succeeds and `Split` fails. |
| RlpRaw.ReadKindSound | rlp/raw.go:123-162 | A success means that the slice starts with a canonical frame of that kind, tag and content, within the slice. |
| RlpRaw.ReadKindComplete | rlp/raw.go:123-162 | Every canonical frame is accepted, whatever follows it. |
| RlpRaw.SplitIff | rlp/raw.go:50-56 | `Split` succeeds with kind, content and rest if and only if the slice is that canonical frame and that rest. |
| RlpRaw.SplitItem | rlp/raw.go:50-56 | On an encoded item and any rest, `Split` returns the payload and that rest. |
| RlpRaw.SplitRawFrame | rlp/raw.go:123-162 | Of the frames that a stream returns raw, `Split` rejects exactly the single bytes below 0x80 behind a string header. |
| RlpRaw.SplitStringIff | rlp/raw.go:60-69 | Succeeds exactly on the encoding of a string and a rest. |
| RlpRaw.SplitUint64Iff | rlp/raw.go:73-95 | Succeeds exactly on the canonical encoding of a 64-bit integer and a rest. |
| RlpRaw.AppendSplitUint64 | rlp/raw.go:196-264 | Appending to any slice appends the encoding of the integer, and splitting it off returns integer and rest. |
| RlpRaw.FramingAgrees | rlp/raw.go:111-121 | A slice can be cut into frames in one way only. |
| RlpRaw.CountValues | rlp/raw.go:111-121 | Counts `n` exactly if the slice is `n` frames one after the other, and fails exactly if it is no sequence of frames. |
| RlpRaw.CountElements | rlp/raw.go:111-121 | On the payload of a list it counts the elements. |
| RlpRaw.ListIterator.Next | rlp/iterator.go:45-54 | Takes off the first frame; on malformed data it reports the error and does not advance. |
| RlpRaw.NewListIterator | rlp/iterator.go:29-42 | Succeeds exactly on a list, and starts with its payload. |
| RlpRaw.Iterate | rlp/iterator.go:29-54 | Yields the encodings of the elements of a list, in order, and then ends. |
| RlpRaw.Calls | rlp/iterator.go:45-54 | Any number of calls of `Next` on any data: its frames in order, then the end, or the same error for ever. |
| RlpRaw.Iteration | rlp/iterator.go:45-54 | Iteration ends, with the frames in order, exactly if `CountValues` accepts the data. |
| RlpRaw.Malformed | rlp/iterator.go:45-54 | A payload on which every call of `Next` gives an error and none the end. |
| World.AddTotal | core/state_transition.go:505-520 | A credit that stays below 2^256 raises the sum of balances by its amount. |
| World.SubTotal | core/state_transition.go:222-224 | A covered debit lowers the sum of balances by its amount. |
| GasPools.GasPool.AddGas | core/gaspool.go:39-45 | Adds the gas, and panics exactly on overflow. |
| GasPools.GasPool.SubGas | core/gaspool.go:49-55 | Takes the gas exactly if there is enough; otherwise nothing changes. |
| GasPools.GasPool.AddBlobGas | core/gaspool.go:63-69 | The same for blob gas. |
| GasPools.GasPool.SubBlobGas | core/gaspool.go:73-79 | The same for blob gas. |
| Authorizations.ApplyAuthorizations | core/state_transition.go:354-417 | The loop computes the fold of single authorisations, and collects exactly the recovered authorities. |
| Authorizations.ApplyOne | core/state_transition.go:362-416 | The eight steps change the state as one authorisation should: all of it, or nothing. |
| Authorizations.NonceLaw | core/state_transition.go:395-416 | Each authority's nonce rises by its number of accepted entries, modulo 2^64. |
| Authorizations.NonceRises | core/state_transition.go:395-416 | The nonce rises exactly by the number of accepted entries, if and only if no entry is accepted with nonce 2^64-1. |
| Authorizations.NoLastNonce | core/state_transition.go:395-416 | A list without nonce 2^64-1 for the authority never makes its nonce wrap around. |
| Authorizations.LastNonceWraps | core/state_transition.go:395-416 | A list with such an entry makes the nonce fall to zero. |
| Authorizations.EffectiveNonce | core/state_transition.go:395-400 | The nonce of an accepted entry is fixed by the accepted entries before it. |
| Authorizations.AtMostOnce | core/state_transition.go:395-416 | Two accepted entries of one authority have different nonces. |
| Authorizations.CodeLaw | core/state_transition.go:406-412 | The final code delegates to the address of the last accepted entry; address 0 clears it. |
| Authorizations.Untouched | core/state_transition.go:357-416 | An account without an accepted entry keeps nonce, code and existence. |
| Authorizations.BalancesKept | core/state_transition.go:357-416 | No authorisation changes a balance. |
| Authorizations.EffectiveIff | core/state_transition.go:362-400 | Which entries take effect, on the initial state and the entries alone: chain id absent, zero or this one; a recovered signer whose code was no contract at the start; nonce the initial one plus the number of entries that took effect for it before, modulo 2^64. |
| Authorizations.ExistLaw | core/state_transition.go:403-416 | An account exists afterwards exactly if it did before or an entry took effect for it. |
| Authorizations.ForeignCode | core/state_transition.go:384-393 | No list makes or replaces the code of a contract. |
| Authorizations.RefundLaw | core/state_transition.go:402-405 | The refund counter rises by 12500, modulo 2^64, for each entry in effect whose authority existed at the start or has an earlier entry in effect. |
| Transition.VanishingBaseFee | core/state_transition.go:469-486 | For a paid message nobody receives the base fee after London without a burn contract; otherwise nothing is lost. |
| Transition.VanishingSign | core/state_transition.go:469-486 | Tip and burn exceed the price exactly if a burn is paid at a price below the base fee. |
| Transition.NothingCreated | core/vm/evm.go:107-111 | In the environment that `NewEVM` builds for a message whose fees are accepted, tip and burn never exceed the price; what a paid message loses is the base fee after London without a burn contract, and nothing otherwise. |
| Transition.CreatesIff | core/vm/evm.go:107-111 | Why the base fee has to be dropped: with that of the block, exactly the accepted messages without fees would be paid out more than was bought, if base fees are disabled and there is a burn contract; `NewEVM` changes the environment of each of them. |
| Transition.EffectivePriceExact | core/types/dynamic_fee_tx.go:348-357 | The wrapping sum of base fee and tip, capped, is exact for every message that can pay for two units of gas. |
| Transition.PriceLawHolds | core/types/dynamic_fee_tx.go:348-357 | A paid message for two units of gas or more that passes, in the environment that `NewEVM` builds for it, has the price min(fee cap, base fee + tip) that the results about sums assume; with base fees disabled, if base fee and tip add up within 256 bits. |
| Transition.CheckFeeCap | core/state_transition.go:235-245 | Passes exactly if the tip is within the cap and the cap covers the base fee, or the message is free. |
| Transition.BuyingLeavesValue | core/state_transition.go:196-224 | A buyable message with a capped price leaves the sender its value, so neither debit wraps. |
| Transition.DebitsSafeIff | core/state_transition.go:196-224 | A message can wrap on no balance that the check admits, if and only if its cost is within what the check asks for. |
| Transition.PassingSafeIff | core/state_transition.go:248-300 | The same for `preCheck` as a whole, for a message whose fees and nonce it can accept. |
| Transition.RequiredIff | core/state_transition.go:196-218 | The balance asked for is covered exactly if the message is affordable at every gas and blob price within its caps. |
| Transition.AppliedIff | core/state_transition.go:248-441 | Which messages are applied, written out on message, environment, sender and pool, down to the intrinsic gas and the affordability at every price within the caps. |
| Transition.DisabledBaseFeeWraps | core/state_transition.go:287-299 | A message with one blob and intrinsic gas 21000 that passes and runs with base fees disabled, and not otherwise, and whose debit wraps around to 2^256-131072. |
| Transition.PaymentsFit | core/state_transition.go:477-484 | After preCheck, refund, tip and burn products stay below 2^256; with base fees on the sender keeps the value. |
| Transition.Refund | core/state_transition.go:505-511 | The refund is the counter, or the share of the gas used if that is less. |
| Transition.StateTransition.BalanceCheck | core/state_transition.go:196-218 | Computes the balance asked for, and fails only if it exceeds 256 bits. |
| Transition.StateTransition.BuyGas | core/state_transition.go:172-233 | Succeeds exactly for a buyable message; then pool, balances and gas counters are as bought. |
| Transition.StateTransition.BuyBlobGas | core/state_transition.go:180-194 | The part about blobs: the fee, and the blob gas taken from the pool. |
| Transition.StateTransition.PreCheck | core/state_transition.go:248-300 | Succeeds if and only if nonce, sender, fee and purchase checks hold; an error names a true reason. |
| Transition.StateTransition.RefundGas | core/state_transition.go:505-520 | Pays for the gas left with the capped refund and returns it to the pool. |
| Transition.StateTransition.PayFees | core/state_transition.go:469-486 | Credits tip and burn for the gas used. |
| Transition.StateTransition.Run | core/state_transition.go:343-459 | Comes to execution exactly if it should, from the state with nonce and authorisations applied, with the gas left after the intrinsic gas. |
| Transition.StateTransition.Settle | core/state_transition.go:460-486 | The final state and the gas not charged, with the quotient 5 after London and 2 before. |
| Transition.StateTransition.TransitionDb | core/state_transition.go:315-503 | Which messages are applied, and used gas, tip, state and pools afterwards; at least four fifths (before London half) of the intrinsic gas is charged, all of it without refunds; with an EVM that leaves the state alone each account is as `SettledLeaves` says; the pool never panics. |
| Transition.Offered | core/state_transition.go:348-459 | The EVM gets the gas bought less the intrinsic gas, all balances as after the purchase, every nonce risen by the authorisations in effect and that of the sender of a call by one more, the refund counter as the authorisations leave it, and the bailout flag exactly if the value is not covered. |
| Transition.GasCharged | core/state_transition.go:422-511 | Used gas is what the EVM did not give back, the intrinsic gas among it, less the refund: the counter, up to a fifth after London and half before. |
| Transition.IntrinsicOnly | core/state_transition.go:427-427 | With an EVM that does nothing and no refund to claim, used gas is the intrinsic gas. |
| Transition.SettledEach | core/state_transition.go:460-520 | For every account and outcome: the balance rises, modulo 2^256, by the unused gas at the gas price for the sender, by the tip for the coinbase and by the base fee for the burn contract, added up where they coincide; nonces, code and refund counter stay, and no other account joins. |
| Transition.BoughtEach | core/state_transition.go:218-224 | For every account: the purchase takes gas price and blob fee from the sender, modulo 2^256, and nothing from anyone else. |
| Transition.SettledLeaves | core/state_transition.go:315-503 | With an EVM that leaves the state alone and no authorisations: every balance is the old one less the purchase plus the credits, the nonce of a call's sender has risen by one, and nothing else has changed. |
| Transition.ChargedExactly | core/state_transition.go:315-503 | For covered messages these amounts are exact: nothing wraps around. |
| Transition.PaidOutTotal | core/state_transition.go:460-520 | The three credits do not wrap and return what was bought minus what nobody receives, whoever receives them. |
| Transition.BoughtTotal | core/state_transition.go:218-224 | A purchase that the balance covers lowers the sum of balances, and the balance of the sender, by gas cost and blob fee. |
| Transition.TransitionTotal | core/state_transition.go:315-503 | The sum of balances falls by what execution destroyed, the blob fee and the vanishing part of the price; with base fees disabled, if the balance of the sender covers the cost. |
| Blocks.ApplyTransaction | core/state_processor.go:38-102 | Applies a transaction exactly if its message passes and runs, with the state and pools of the specification and an empty refund counter; counters and receipt follow the gas used and the outcome of the EVM, and the sum of balances falls as stated. |
| Blocks.ApplyTransactions | core/blockchain.go:116-143 | The loop follows the specification transaction by transaction, with a receipt for each, the sum of balances falling by what the executions destroyed and the fees, and stops at the first one that does not apply, for a true reason. |
| Blocks.ThroughNone | core/blockchain.go:132-135 | Once a transaction does not apply, the block does not, whatever follows. |
| Blocks.NothingDestroyed | core/blockchain.go:116-143 | EVMs that only move balances destroy nothing over a whole block. |
| Blocks.ExecuteBlock | core/blockchain.go:99-160 | Exactly which blocks are rejected for a transaction, for the gas used and for the blob gas used, which is counted modulo 2^64 and exact after Cancun. The error of a rejected transaction is a true reason. For an executed block: final state and pools as specified, every receipt has the failure flag of the EVM outcome of its transaction, run from the state after those before it, and the gas that this took out of the pool, cumulative gas is the prefix sum, pool plus gas used is the limit after each transaction, header gas matches, no panic, and the sum of balances falls by what the executions destroyed plus blob fees plus gas used times the vanishing price. |
| Blocks.CumulativeSnoc | core/state_processor.go:72-89 | A receipt that adds its gas to the sum so far keeps the receipts cumulative. |
| Feeds.Feed.AddToInbox | event/feed.go:75-95 | A subscription joins the inbox. |
| Feeds.Feed.Find | event/feed.go:216-223 | Returns an index of the channel, or -1 exactly if there is none. |
| Feeds.Feed.Delete | event/feed.go:226-228 | Removes exactly the case at the index, in place, and keeps the order. |
| Feeds.Feed.Deactivate | event/feed.go:231-235 | Swaps the case with the last active one. |
| Feeds.Feed.Remove | event/feed.go:106-127 | Removes one subscription of the channel, and panics exactly if there is none. |
| Feeds.Feed.TakeInbox | event/feed.go:139-140 | Appends the inbox to the cases, in the same array or a fresh one. |
| Feeds.Feed.TryAll | event/feed.go:162-168 | Offers the value to every active case once; what is accepted is delivered and leaves the prefix. |
| Feeds.Feed.Serve | event/feed.go:181-184 | The chosen case is delivered and leaves the active prefix. |
| Feeds.Feed.RemoveActive | event/feed.go:174-180 | A cancelled case leaves the list, and the prefix if it was active. |
| Feeds.Feed.OnEvent | event/feed.go:172-185 | Keeps the books balanced; the prefix shrinks by one for a delivery and for a cancelled case that was still to be served, and stays for the inbox and for a served case. |
| Feeds.Feed.Send | event/feed.go:131-193 | For every script: deliveries and subscriptions cancelled first make up those present at the start exactly if it finishes; every cancellation of the script is of one to be served, a served or a new one; the inbox holds the new ones; each round of the fast path makes one offer to each subscription that offers and events before it have left; `nsent` counts the deliveries, ready channels and accepted offers; the list is the initial one without the cancelled. |
| Feeds.ExactlyOnce | event/feed.go:131-193 | After a `Send` that finishes, a channel subscribed once that no event has cancelled got the value exactly once; nobody ever gets it more often than it was subscribed. |
| Feeds.Deliveries | event/feed.go:131-193 | A finished `Send` leaves out only cancelled subscriptions, also for a channel subscribed several times. |
| Mux.SortCaps | p2p/protocol.go:83-89 | Sorts by name and version: ordered, and a permutation. |
| Mux.MatchProtocols | p2p/peer.go:407-429 | The table has each shared name with its highest shared version, and the ranges tile from 16 in the order of names. |
| Mux.TiledAgain | p2p/peer.go:416-423 | Reverting the last range and assigning a new one keeps the tiling. |
| Mux.SameTable | p2p/peer.go:407-429 | Two tables for the same shared capabilities and lengths have the same versions and offsets. |
| Mux.Handshake | p2p/peer.go:407-429 | Both ends compute the same names, versions and offsets. |
| Mux.Disjoint | p2p/peer.go:458-465 | No code is in the ranges of two protocols. |
| Mux.Covered | p2p/peer.go:458-465 | Every code from 16 up to the top is in the range of a protocol of the table. |
| Mux.GetProto | p2p/peer.go:458-465 | Finds a protocol whose range holds the code, and fails only if there is none, in any iteration order. |
| Mux.Deliver | p2p/peer.go:480-524 | A code below the length reaches the same protocol on the other end with the same code. |
| ExpHeaps.RootMin | p2p/util.go:38-40 | The root of the heap has the least expiry time. |
| ExpHeaps.Up | p2p/util.go:43-45 | Sifting up restores the heap and permutes. |
| ExpHeaps.Down | p2p/util.go:58-65 | Sifting down restores the heap and permutes. |
| ExpHeaps.ExpHeap.NextExpiry | p2p/util.go:38-40 | The least expiry time. |
| ExpHeaps.ExpHeap.Add | p2p/util.go:43-45 | Adds exactly the item. |
| ExpHeaps.ExpHeap.Contains | p2p/util.go:48-55 | Found exactly if some item has the name. |
| ExpHeaps.ExpHeap.Expire | p2p/util.go:58-65 | Takes out exactly the items whose time is before now. |
| Dialing.HistoryAdd | p2p/dial.go:468-479 | A dial of a node that is not in the history keeps the dials of each node apart. |
| Dialing.HistoryRemove | p2p/dial.go:381-390 | Forgetting an expired item loses no dial that is still recent. |
| Dialing.DialScheduler.CheckDial | p2p/dial.go:404-427 | Passes exactly if the node may be dialed; a refusal names a true reason. |
| Dialing.DialScheduler.AddToStaticPool | p2p/dial.go:447-453 | Appends the task at its index, and panics exactly if it is in the pool. |
| Dialing.DialScheduler.RemoveFromStaticPool | p2p/dial.go:457-465 | Moves the last task into the gap and keeps every index right. |
| Dialing.DialScheduler.StartDial | p2p/dial.go:468-479 | Logs the dial and adds it to the history and the active dials. |
| Dialing.DialScheduler.StartStaticDials | p2p/dial.go:430-437 | Starts exactly the pooled tasks and empties the pool, in any random order. |
| Dialing.DialScheduler.UpdateStaticPool | p2p/dial.go:440-445 | Adds the task exactly if it is outside the pool and may be dialed. |
| Dialing.DialScheduler.ExpireHistory | p2p/dial.go:381-390 | Drops exactly the expired items and repools their nodes. |
| Dialing.DialScheduler.OnCandidate | p2p/dial.go:262-267 | Starts a dial exactly if the loop listens and the candidate may be dialed. |
| Dialing.DialScheduler.OnTaskDone | p2p/dial.go:269-273 | Ends the dial and repools a static task that may be dialed again. |
| Dialing.DialScheduler.OnPeerAdded | p2p/dial.go:275-285 | Counts the peer and takes its task, and no other, out of the pool. |
| Dialing.DialScheduler.OnPeerRemoved | p2p/dial.go:288-293 | Uncounts the peer and repools its task. |
| Dialing.DialScheduler.OnAddStatic | p2p/dial.go:295-306 | Adds a new static task, pooled if it may be dialed. |
| Dialing.DialScheduler.OnRemoveStatic | p2p/dial.go:308-317 | Removes the task from the static set and the pool. |
| Dialing.DialScheduler.Prepare | p2p/dial.go:245-252 | The pool is empty when the loop waits, which listens for candidates exactly if slots were free. |
| Dialing.DialScheduler.NoneLeft | p2p/dial.go:430-445 | While the loop waits, no static node that may be dialed is left undialed. |
| Dialing.Loop | p2p/dial.go:242-323 | Every run: dials, active dials, history, peers, dialed peers and static records are those of the replay of the events; every dial is of a node that an event proposed; every static node is self, connected, being dialed, dialed lately or has a record that cannot be dialed; pool indices right and ids distinct, pool empty at each wait, every active dial and every history item logged, no dial of self, a peer or an active dial, dials of a node more than 35 s apart, dynamic dials within the limit. |
| DialRuns.CandidateIff | p2p/dial.go:262-267 | In every turn with a candidate: it is dialed then exactly if the active dials at the top of the turn were fewer than twice the free peer slots and than the maximum, and it is another node, reachable, not connected, not being dialed and not dialed lately. |
| DialRuns.StaticIff | p2p/dial.go:429-445 | At the top of every turn exactly the static nodes are dialed that are reachable, not connected, not being dialed and not dialed lately; so a static node is dialed again once its history item has expired. |
| DialRuns.HistoryLaw | p2p/dial.go:381-390 | The history has an item exactly for the dials after which no history timer has fired more than 35 s later. |
| DialRuns.ActiveIff | p2p/dial.go:269-273 | The nodes being dialed are those with a dial that was started and whose task has not finished since. |
| DialRuns.Learns | p2p/dial.go:275-317 | Peers, dialed peers and static nodes follow from the peer and static events, and each static record is one that an event gave. |
| DialRuns.OnlyProposed | p2p/dial.go:262-306 | Every dial is of a candidate or a static node of the events. |
| DialRuns.AllAttended | p2p/dial.go:245-252 | While the loop waits, no static node that may be dialed is without a dial, on the events alone. |
| Servers.SlotsSplit | p2p/server.go:711-728 | Dialed and inbound slots lie between 0 and the number of peers exactly if the ratio is not a small negative number; with dialing on there is a dialed slot. |
| Servers.SlotsExact | p2p/server.go:711-728 | Dialed and inbound slots add up to `MaxPeers`; with dialing on, one slot in q is dialed, rounded down, with q the ratio or 3, but at least one; without dialing all are inbound. |
| Servers.CountMatchingProtocols | p2p/peer.go:394-404 | The number of matching pairs, which is zero exactly if nothing is shared. |
| Servers.Server.PostHandshakeChecks | p2p/server.go:891-906 | Passes exactly if the connection may become a peer; refusals have a true reason. |
| Servers.Server.AddTrusted | p2p/server.go:803-810 | Trusts the node, and flags its peer if it is connected. |
| Servers.Server.RemoveTrusted | p2p/server.go:812-819 | Withdraws the trust, and the flag of its peer. |
| Servers.Server.PostHandshake | p2p/server.go:826-833 | Flags the connection exactly if its node is trusted now. |
| Servers.Server.AddPeer | p2p/server.go:835-849 | Admits exactly the connections that pass, and keeps the table and its counts. |
| Servers.Server.DelPeer | p2p/server.go:851-859 | Removes the peer and keeps the counts. |
| Servers.Run | p2p/server.go:797-859 | Every run: the events that take place and the peers are those that a replay of the events gives; own id not a peer, `inboundCount` is the number of inbound peers, unflagged admissions within `MaxPeers`, inbound ones within their slots, a connection runs exactly if it is a peer; trust is that of all events, flags and guests follow from the history. |
| Servers.HistoryAt | p2p/server.go:797-859 | The events that take place are events of the run, in its order, with every change of trust among them. |
| Servers.AllCome | p2p/server.go:826-833 | Every connection that is announced comes to its first checkpoint. |
| Servers.Server.SentIff | p2p/server.go:797-859 | A connection can send exactly the events that the replay lets take place: each checkpoint once and in order, and a drop only of a peer. |
| Servers.Server.EntersIff | p2p/server.go:835-849 | The second checkpoint decides as the replay does, from the trust at the first checkpoint and the peers so far. |
| Servers.AdmissionIff | p2p/server.go:835-849 | In every history: a connection becomes a peer exactly if it is another node, not a peer, shares a protocol, and its node was trusted at the first checkpoint or there is room among all peers and, for an inbound one, among those. |
| Servers.StaleIff | p2p/server.go:803-849 | For a connection with its two checkpoints in a history: its flag agrees with the trust in its node exactly if trust was set since its admission or was the same at both checkpoints. |
| Servers.PeerFlag | p2p/server.go:803-849 | The same for every peer of a server, which was admitted as a guest exactly if its node was not trusted at its first checkpoint. |
| Servers.StaleTrust | p2p/server.go:812-849 | A peer that carries the flag although its node is no longer trusted, the second one of a server with `MaxPeers` 1. |
| Servers.PeersRun | p2p/server.go:901-902 | An admitted peer of a server with protocols gets a table that is not empty. |
| BlockHashes.HashFn.Query | core/evm.go:111-136 | Returns what the walk without a cache finds, and keeps each cache entry the hash of its ancestor. |
| BlockHashes.Hit | core/evm.go:116-118 | A cached index holds what the walk finds, also for numbers that wrap around. |
| BlockHashes.Queries | core/evm.go:106-137 | Every sequence of queries gives the answers of fresh walks. |
| BlockHashes.OnChain | core/evm.go:106-137 | On a chain of headers: the hash of each ancestor, the genesis parent hash at 2^64-1, and no hash for every other number. |
| KeyWalks.MatchesShares | ethdb/kv_util.go:32-56 | The masked comparison holds exactly if the first bits are equal. |
| KeyWalks.Squeeze | ethdb/kv_util.go:32-32 | A key between the start key and a matching key matches. |
| KeyWalks.Done | ethdb/kv_util.go:32-46 | After the first mismatching or short key nothing matches. |
| KeyWalks.Walk | ethdb/kv_util.go:26-46 | Shows the matching entries from the start key on, in order: all of them, or up to where the walker or the cursor stops. |
| KeyWalks.SplitCursor.Seek | ethdb/walk.go:72-81 | Positions at the first key not below the start key and returns its parts if it matches. |
| KeyWalks.SplitCursor.Next | ethdb/walk.go:83-92 | Moves on by one and returns the parts if the key matches. |
| KeyWalks.SplitCursor.SplitParts | ethdb/walk.go:80-80 | The parts have the lengths of the three ranges and make up the key if the first two ranges meet. |
| KeyWalks.Collect | ethdb/walk.go:56-92 | Seek and Next yield the parts of exactly the entries that `Walk` shows. |
| GasLimits.BoundedIff | core/block_validator.go:29-50 | The step is below a 1024th and toward the target exactly if the parent is at least 1024 and the increase stays within 64 bits. |
| GasLimits.StepExact | core/block_validator.go:29-50 | The next limit is the target if that is within a 1024th part less one, and otherwise exactly that part less one closer. |
| GasLimits.Allowed | params/protocol_params.go:29-31 | Between minimum and maximum the step is bounded, and the limit stays between them. |
| GasLimits.Approaches | core/block_validator.go:29-50 | Later limits lie between earlier ones and the target. |
| GasLimits.Reaches | core/block_validator.go:29-50 | The target is reached in at most as many blocks as it is away. |
| GasLimits.Converges | core/block_validator.go:29-50 | For every parent the target is reached for good, if and only if the parent is not between 1024 and 2047. |

## Left out

- Reflection, struct tags, the type cache, buffer pools and error wrapping of `rlp`: item trees stand for Go values.
- Allocation failure on very large announced sizes in unlimited streams; slice lengths are within the source's `int`.
- `Stream.NewList` and `NewListStream`: they push or announce a list without checking that it fits.
- Typed decoding other than strings, integers, raw values and untyped items.
- The EVM, intrinsic gas, signature recovery, access lists and `PostApplyMessage`: the EVM is a parameter that returns no more gas than it was given and creates no balance; intrinsic gas and recovered signers are part of the message.
- `FinalizeTx` beyond clearing the refund counter: the removal of destroyed and empty accounts at the end of a transaction is not part of this model.
- Stateless execution, which goes on after a rejected transaction; receipt hashes, logs and blooms.
- Blocks.ExecuteBlock: the sums of balances are stated with base fees on; no caller disables them for a block.
- The values carried by a feed and its type check.
- `sort.Sort` and `container/heap` are modelled by an insertion sort and by sift operations of this project.
- RLPx transport, discovery, NAT, timers, metrics and logging; the base-protocol messages below code 16 are only kept away from the protocols.
- A dial's resolution of the endpoint of its node is seen by the scheduler when the dial ends.
- Dialing.DialScheduler.OnRemoveStatic: takes the task out of the pool before the static set, where the source does it afterwards; no other step comes between the two.
- The shutdown of the server and of the dial loop.
- Servers.Run: events that a connection's goroutine cannot send in its stage do not take place, and connections come to their first checkpoint without the trusted flag.
- ExpHeaps.ExpHeap.Expire: returns the expired items, where the source calls back for each; `Dialing.DialScheduler.ExpireHistory` has the loop with its callback.
- BlockHashes.Queries: the header store answers with headers of the number asked for, has none at 2^64-1, and does not change between queries.
- KeyWalks.Walk: the walker is any function of the entries shown so far, and the cursor any sorted table with failing operations.
- rpc, node, ethstats, diagnostics, crypto, migrations and dataflow: wiring, wrappers and constants, which would only add easy members.
