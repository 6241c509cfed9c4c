# CDMA with Walsh codes: a verified model

The modelled program demonstrates code-division multiple access (CDMA). It has
`length_m = 4` users who share one channel. Each user sends one bit per frame:
the character '0' is sent as voltage +1, any other character as -1.

The user's voltage is spread over that user's row of a Walsh-Hadamard code
matrix. The spread rows are summed chip by chip into one combined signal. A
receiver recovers user r's bit by taking the inner product of the combined
signal with code row r. It divides the result by `length_m` using C++'s
truncating division and tests the sign.

The code matrix is built by repeated Kronecker (tensor) products of the seed
`[[1, 1], [1, -1]]`.

There are two programs:

- `CDMA_codes.cpp` spreads and decodes one frame.
- `CDMA_parallelizm.cpp` runs a producer thread and a consumer thread. The
  producer reads tokens, pads each to `length_m` characters and queues it. It
  shuts down on the sentinel `exit`. The consumer takes frames from the front
  of the queue, decodes them, and appends each user's digit to that user's
  history string.

The Dafny project has four modules:

- **IntArith** (`int_arith.dfy`) covers powers of two and the floor base-2
  logarithm, which stands in for `std::log2`. It also covers C++ division of
  an `int` by a positive divisor, which truncates toward zero, and the
  row-major index `i * p + ii` of a Kronecker product.
- **CodeBook** (`code_book.dfy`) covers the inner product, the Kronecker
  product and `tensor_product`, which fills the product cell by cell.
  - It covers `walsh_of` and `channel_sequence_of`.
  - It proves that every matrix these return is Walsh-Hadamard: square,
    entries ±1, and rows pairwise orthogonal.
- **Modem** (`modem.dfy`) covers `convertStringToInts`, `scalar_sum_of_codes`,
  `decode_signal` and the decode loop of `main`. It proves the noiseless
  round trip: every user's bit is recovered from the combined signal.
- **StreamingPipeline** (`pipeline.dfy`) models the global state of the
  streaming program as a class: the queue, the running flag and the decoded
  histories.
  - The producer's step and the consumer's step are methods that update that
    state.
  - Whole runs of either loop are methods with loop invariants.

Each C++ routine that works step by step is a method with its loops. It is
proved equal to a specification function, and the properties are proved about
that function:

- `TensorProduct` equals `Kronecker`.
- `ScalarSumOfCodes` equals `Combined`.
- `DecodeSignal` equals `Decoded`.
- `ConvertStringToInts` equals `Voltages`.

`CDMA_parallelizm.cpp:40-159` repeats `tensor_product`, `walsh_of`,
`channel_sequence_of`, `convertStringToInts`, `scalar_sum_of_codes` (without
its printing) and `decode_signal` from `CDMA_codes.cpp`. Each routine is
modelled once, and the streaming model uses the same members.

For the input `0101` the code gives the combined signal `[0, 4, 0, 0]`:
chip 3 is `1·1 + (-1)·(-1) + 1·(-1) + (-1)·1 = 0`. `Modem.WorkedExample`
proves `[0, 4, 0, 0]` and the decoded bits 0, 1, 0, 1.

Whether `log2(N) + 1` gives the right Walsh order for powers of two other
than 4 is settled by `CodeBook.ChannelSequenceOfPowerOfTwo`, which proves that
it does: for every N = 2^k with k ≥ 1 the matrix is N × N.

## Model

| member | source | states |
|---|---|---|
| IntArith.Log2 | CDMA_codes.cpp:70 | the integer part of log2(N) for N ≥ 1: the unique r with 2^r ≤ N < 2^(r+1) |
| IntArith.Log2OfPow2 | CDMA_codes.cpp:70 | the logarithm of 2^k is exactly k |
| IntArith.TruncDiv | CDMA_codes.cpp:147 | C++ `a / b` for b > 0 rounds toward zero: for a ≥ 0 the quotient is the largest q with q·b ≤ a; for a < 0 the smallest q with a ≤ q·b ≤ 0 |
| IntArith.TruncDivNegative | CDMA_codes.cpp:147 | the test `inner_product / length_m < 0` holds exactly when inner_product ≤ -length_m |
| CodeBook.Kronecker | CDMA_codes.cpp:29-53 | the tensor product of an m×n and a p×q matrix is (m·p)×(n·q) |
| CodeBook.KroneckerAt | CDMA_codes.cpp:46 | entry [i·p + ii][j·q + jj] of the product is A[i][j]·B[ii][jj] |
| CodeBook.TensorProduct | CDMA_codes.cpp:29-53 | the four nested loops over a zero matrix produce exactly the Kronecker product |
| CodeBook.KronRowDot | CDMA_codes.cpp:46 | the inner product of two rows of a tensor product factors into the inner products of their parts |
| CodeBook.SeedIsWalshHadamard | CDMA_codes.cpp:11 | the seed `h_2` is a 2×2 Walsh-Hadamard matrix |
| CodeBook.KroneckerIsWalshHadamard | CDMA_codes.cpp:63-64 | the tensor product of two Walsh-Hadamard matrices of sides a and b is Walsh-Hadamard of side a·b |
| CodeBook.WalshOf | CDMA_codes.cpp:55-65 | `walsh_of(k)` is square, with side 2 for k ≤ 2 and side doubling with each further k |
| CodeBook.WalshIsWalshHadamard | CDMA_codes.cpp:55-65 | every `walsh_of(k)` has entries ±1 and pairwise orthogonal rows, each row having inner product equal to the side with itself |
| CodeBook.ChannelSequenceOf | CDMA_codes.cpp:67-71 | for N ≥ 2 the codes form a Walsh-Hadamard matrix whose side is 2^⌊log2 N⌋, the largest power of two not above N (so N ≤ 2·side); N = 1 yields the 2×2 seed |
| CodeBook.ChannelSequenceOfPowerOfTwo | CDMA_codes.cpp:67-71 | for N = 2^k with k ≥ 1 there are exactly N codes of N chips, mutually orthogonal |
| CodeBook.ChannelSequenceOfPow2 | CDMA_codes.cpp:67-71 | for N = 2^k the codes are exactly `walsh_of(k + 1)` |
| CodeBook.ChannelSequenceDoubling | CDMA_codes.cpp:63-70 | doubling the channel count is one more tensor product with `h_2` |
| CodeBook.WalshOfThree | CDMA_codes.cpp:55-65 | `walsh_of(3)` is the 4×4 matrix [[1,1,1,1],[1,-1,1,-1],[1,1,-1,-1],[1,-1,-1,1]] |
| CodeBook.ChannelSequenceOfFour | CDMA_codes.cpp:67-71 | `channel_sequence_of(4)` is that 4×4 matrix |
| Modem.Voltages | CDMA_codes.cpp:79 | one voltage per character, +1 exactly for '0' and -1 exactly for every other character |
| Modem.ConvertStringToInts | CDMA_codes.cpp:73-83 | the loop appends exactly those voltages, in order |
| Modem.Combined | CDMA_codes.cpp:117-126 | the combined signal of n users has n chips, chip c being the column sum Σ_r codes[r][c]·data[r] |
| Modem.ScalarSumOfCodes | CDMA_codes.cpp:98-136 | the product matrix and then its column sums give chip c = Σ_r codes[r][c]·data[r] over the `length_m` users |
| Modem.CombinedReadsPrefix | CDMA_codes.cpp:106-112 | the combined signal depends only on the first `length_m` data values |
| Modem.Decoded | CDMA_codes.cpp:138-148 | the decoded bit over n chips is 0 or 1, and 1 exactly when the inner product of signal and code is at most -n |
| Modem.DecodeSignal | CDMA_codes.cpp:138-148 | the accumulating loop and the truncated quotient compute exactly that bit |
| Modem.DecodeUsers | CDMA_codes.cpp:158-162 | one bit per code row, in row order, each the decoding against that row |
| Modem.PartialSignalDot | CDMA_codes.cpp:117-126 | correlation is linear: correlating the combined signal with u is the data-weighted sum of each code row's correlation with u |
| Modem.WeightedDotsOrthogonal | CDMA_codes.cpp:158-161 | against Walsh-Hadamard codes, correlating with row r leaves only user r's term data[r]·n |
| Modem.RoundTrip | CDMA_codes.cpp:150-162 | for any n×n Walsh-Hadamard codes and any string of at least n characters, decoding user r returns 0 exactly when character r is '0' |
| Modem.DecodeFrame | CDMA_codes.cpp:150-162 | `main` without I/O: for every input of at least `length_m` characters, user r's decoded bit is the bit of character r |
| Modem.WorkedExample | CDMA_codes.cpp:150-162 | input `0101` combines to [0, 4, 0, 0] and decodes to 0, 1, 0, 1 |
| StreamingPipeline.Padded | CDMA_parallelizm.cpp:104-107 | a token shorter than `length_m` is extended with '0' to exactly `length_m` characters and keeps its prefix; a longer one is unchanged |
| StreamingPipeline.Digit | CDMA_parallelizm.cpp:186 | `std::to_string` of a decoded bit: '0' for bit 0 and '1' otherwise, and reading the digit back as a frame character returns the bit 0 or 1 |
| StreamingPipeline.ReplayedInOrder | CDMA_parallelizm.cpp:175-187 | after a run of frames, user u's history is the old history followed by the digit of character u of each frame, in queue order |
| StreamingPipeline.Pipeline.constructor | CDMA_parallelizm.cpp:22-24 | the queue starts empty, `running` true, and `length_m` empty histories |
| StreamingPipeline.Pipeline.Submit | CDMA_parallelizm.cpp:104-118 | the padded token either stops the pipeline without being queued (sentinel) or is queued at the back; histories unchanged |
| StreamingPipeline.Pipeline.RunProducer | CDMA_parallelizm.cpp:96-120 | the producer queues every token before the first sentinel, in order, and stops running exactly when some token pads to the sentinel |
| StreamingPipeline.Pipeline.ConsumeOne | CDMA_parallelizm.cpp:168-187 | with nothing queued after shutdown it stops and changes nothing; otherwise it pops the front frame, and each user's history gains that frame's bit |
| StreamingPipeline.Pipeline.DrainAsWritten | CDMA_parallelizm.cpp:165-199 | with the guard `running`: while running every queued frame is decoded in order; after shutdown the queue and histories are left exactly as they were |
| StreamingPipeline.Pipeline.Drain | CDMA_parallelizm.cpp:165-199 | with the guard `running` or queue non-empty: every queued frame is decoded in order, the queue ends empty, and the consumer waits exactly when still running |
| StreamingPipeline.ShutdownDropsFrames | CDMA_parallelizm.cpp:165-173 | frames `0101` and `1100` followed by `exit`, as written: both frames remain queued and every history stays empty |
| StreamingPipeline.ShutdownWhileWaitingDropsFrame | CDMA_parallelizm.cpp:165-187 | the same arrivals while the consumer is parked in its wait, as written: the wake-up decodes `0101`, then the guard ends the consumer, leaving `1100` queued and the histories `0`, `1`, `0`, `1` |
| StreamingPipeline.OneFrameAppended | CDMA_parallelizm.cpp:183-187 | decoding `0101` into empty histories gives the histories `0`, `1`, `0`, `1` |
| StreamingPipeline.ShutdownDrainsFrames | CDMA_parallelizm.cpp:165-173 | the same arrivals with the corrected guard: the queue is emptied and the histories are `01`, `11`, `00`, `10` |
| StreamingPipeline.TwoFramesReplayed | CDMA_parallelizm.cpp:183-187 | decoding `0101` then `1100` into empty histories gives the histories `01`, `11`, `00`, `10` |

## Left out

- Console I/O is not modelled: `get_data_input`, `print2dVector`, the
  printing inside `scalar_sum_of_codes`, the printing of decoded users, and the
  screen clearing in the consumer. Input tokens become parameters.
- Threads, the mutex, the condition variable and its notifications are not
  modelled. The model keeps only the sequential effect of each loop pass on
  the shared state.
  - `Pipeline.ConsumeOne` is one consumer pass after its wait has returned.
  - `Pipeline.Drain` and `Pipeline.DrainAsWritten` run the consumer while the
    producer is idle.
  - Other interleavings and spurious wake-ups are not explored.
- `CodeBook.ChannelSequenceOf` uses the integer floor logarithm in place of
  the floating-point `std::log2`. The two agree for every positive 32-bit
  `int`. The function requires N ≥ 1, because for N ≤ 0 the C++ logarithm is
  not finite and the cast to `size_t` is undefined.
- `Modem.DecodeFrame` requires at least `length_m` input characters. The
  single-frame program does not pad its input, and for shorter input it reads
  past the end of the data vector. That is undefined behaviour, which the
  model does not assign a value.
- Each Dafny `char` of a token or input string stands for one C++ `char`,
  that is one byte. Multi-byte characters are not modelled: the C++ counts
  (`data.size()`), pads and decodes their bytes one by one, so a token such as
  `é` is two frame characters there and one here.
- Machine integer widths are not modelled: `int` overflow and `size_t`
  wrap-around are absent. With `length_m = 4` every chip sum and inner
  product is at most 16 in magnitude.
- `Pipeline.RunProducer` stops when its token sequence runs out. The C++
  producer behaves differently at end of input, where `std::cin >> data`
  leaves `data` empty and the thread keeps queuing `0000`. That case is not
  modelled.
- `Pipeline.ConsumeOne` decodes a frame through `Modem.DecodeFrame`. That
  method takes the same steps as the consumer: conversion, spreading, and
  decoding against every code row. It recomputes the spreading codes for each
  frame, where the consumer computes them once per thread. The value is the
  same.
- `FourierSeriesRecSignals.py` and `FastFourierTransformation.py` are
  unrelated signal-processing scripts and are not part of this model.

## Findings

| source | as written | input that shows it | evidently intended | confidence | as-written member | corrected member |
|---|---|---|---|---|---|---|
| CDMA_parallelizm.cpp:165 | the consumer loop's guard is `running` alone, so once the sentinel has cleared `running` the consumer leaves its loop with frames still queued, and they are never decoded | tokens `0101`, `1100`, `exit` entered before the consumer first reaches its loop guard (`StreamingPipeline.ShutdownDropsFrames`: both frames left queued, histories empty); if the consumer is already parked in its wait, it decodes `0101` and then leaves `1100` queued (`StreamingPipeline.ShutdownWhileWaitingDropsFrame`) | the guard `running \|\| !input_queue.empty()`, so the queue drains before the consumer stops, as the exit test `!running && input_queue.empty()` on line 170 presumes (`StreamingPipeline.ShutdownDrainsFrames`) | not executed; depends on thread interleaving | StreamingPipeline.Pipeline.DrainAsWritten | StreamingPipeline.Pipeline.Drain |
