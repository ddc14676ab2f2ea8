# Verified model of the measurement agent and its controller

This project models, in Dafny, the parts of the network-measurement agent (Rust,
`agent/`) and of its controller (Go, `server/`) whose correctness rests on
arithmetic, on the layout of bytes, or on what happens over long runs, and proves
what those parts promise.

| file | models |
|---|---|
| `Bytes.dfy`, `Crc16.dfy`, `CrcPeriod.dfy`, `CrcCheck.dfy`, `Mqp.dfy` | the MQP header, its CRC-16/CCITT-FALSE, and the rewrite of a request into a reply in the buffer it arrived in |
| `Reflector.dfy`, `ProbeRun.dfy` | the reflector's sessions and counters; the sender's loop; both together over a channel that loses, reorders and duplicates packets |
| `Sorting.dfy`, `PairSums.dfy`, `Stats.dfy` | round-trip, jitter, loss and reordering figures |
| `Mos.dfy` | the E-model score (ITU-T G.107), over the reals |
| `Twamp.dfy` | NTP timestamps, the round trip they give, and the TWAMP-Light packets |
| `Subsequences.dfy`, `Spool.dfy`, `Delivery.dfy` | the bounded queue of unsent results, and the lossy protocol that drains it into the controller's idempotent store |
| `Plan.dfy`, `PlanRuns.dfy` | the local scheduler, one operation at a time and over whole runs |
| `Mesh.dfy`, `MeshGuarantees.dfy` | which agents probe which in one cycle |
| `Arithmetic.dfy`, `SetSizes.dfy`, `Wrappers.dfy` | shared lemmas and datatypes |

Code that updates buffers, fields or local variables is modelled by classes and by
methods with loops; each method is tied to a function of its inputs or of the old
state, and the theorems are about those functions. Instants, durations, byte counts
and identifiers are mathematical integers, with wrap-around written out where the
code relies on it (the 32-bit reply counter, NTP eras, header fields). Clock
readings, the outcome of sends and submissions, the order a hash table is walked
in, and storage failures are parameters, so every theorem holds whatever they are.

## How the main results fit together

* **Wire format.** `Mqp.DecodeEncoded` and `Mqp.EncodeDecoded` say exactly when
  encoding and decoding undo each other; `Mqp.EncodedBytes` and `Mqp.DecodedExactly`
  fix the layout itself, byte by byte. The checksum is computed by
  `Crc16.Crc16Ccitt` over words; `Crc16.FeedIsBits` shows that to be a 16-bit shift
  register fed one bit at a time, which is linear and injective on 16-bit windows.
  `CrcCheck.CrcStartsFromOnes` says what it starts from, and `CrcCheck.CheckValue`
  computes the published check value through every step of it.
  `CrcPeriod.Period` shows its period to be exactly 32767 steps. Hence
  `Mqp.CorruptionRejected`: a burst of up to sixteen bits anywhere in the header,
  checksum included, any odd number of flipped bits, and any two, are rejected; and
  sixteen is the limit (`Crc16.SeventeenUnnoticed`).
* **Reflection.** `Mqp.ReflectionUpdatesRecord` is the commuting square: rewriting
  the bytes of a packet is updating the record it decodes to. `Reflector.Handle`
  carries it to whole received packets; `ProbeRun` uses the record form, and
  `ProbeRun.ProbesAreAnswered` and `ProbeRun.Run` connect the two.
* **Loss attribution.** `ProbeRun.AttributionIsExact` measures the reported loss
  figures against what the reflector and the channel really did, in every run,
  duplicated packets included, and says exactly when they are right;
  `ProbeRun.AttributionIsSound` is the case without duplicates.
* **Delivery.** `Delivery.DeliveryAccounting` holds after every sequence of
  enqueues, submissions (applied or not, acknowledged or not) and heartbeats, and
  determines which results have a row, which tasks are closed, and that what was
  reported as dropped is what acknowledged messages carried. The spool theorems say what survives an
  outage; `Delivery.OutageKeepsOnsetAndRecent` carries them through failed drains,
  from whatever the last acknowledged submission left behind.
* **Scheduling.** Cadence, bursts, starvation and one-shots over every interleaving
  of operations, ties broken adversarially. `PlanRuns.NotStarved` needs nothing of
  the intervals; `PlanRuns.StarvedIffZeroNeighbour` says exactly when a clock that
  stands at the due time lets a task starve.
* **Mesh plans.** `MeshGuarantees.PlannedExactly` says exactly which pairs a plan
  measures, and `MeshGuarantees.ExcludedExactly` what it reports as left out; coverage
  in no more cycles than it takes, regularity, load and sends of the partial plan
  follow.

## Where the code and its comments disagree

The model follows the code.

* `agent/src/proto/twamp.rs:346-363` says a turnaround longer than the whole round
  trip is ignored. The saturating subtraction makes the round trip zero instead
  (`Twamp.IncredibleTurnaround`, and an input in `Twamp.IncredibleTurnaroundExample`).
* `server/internal/store/store.go:413-416` says saving is idempotent on the task.
  The key is the task and its end time (`Delivery.IdempotentOnKeyOnly`, and an input
  in `Delivery.OneTaskTwoRows`).
* `server/internal/scheduler/mesh.go:235-236` says no agent exceeds its fanout at
  once. An agent sends more than its fanout exactly when it takes over more sessions
  from agents that cannot probe it than it has peers it cannot probe
  (`MeshGuarantees.PartialSends`); three agents, one of them behind NAT, are enough
  (`MeshGuarantees.FanoutExceededByFlip`). Counting both ends it is never in more
  than twice its fanout (`MeshGuarantees.PartialLoad`).
* `agent/src/spool.rs:205-207` says re-admission must not push the spool past its
  ceiling. It does exactly when the oldest returned result alone exceeds it
  (`ResultSpool.ReturnKeepsLongestPrefix`). The agent never gets there: it returns
  what it has just taken, at the same sizes, and that loses nothing
  (`Delivery.LostSubmissionIsHarmless`).
* `agent/src/spool.rs:24-26` says a drain empties the spool, so that the oldest
  entries are always the first results after the last successful submission. A drain
  that is acknowledged for one batch and loses the next leaves results behind; they
  take up the reserve, and the onset of the new outage is protected only in what
  remains of it (`Delivery.OutageKeepsOnsetAndRecent`, `Delivery.ReserveIsForTheOnset`;
  a run in which it is lost in `Delivery.OnsetLost`).
* `agent/src/spool.rs:28-30` says drops are surfaced to the controller. They are sent,
  and the agent clears its count once the message is acknowledged, but the controller
  reads a drop count from neither kind of message
  (`server/internal/api/api.go:157-161`, `server/internal/api/api.go:200-202`). In
  this model "reported" means sent in a message that was acknowledged.
* `agent/src/probe/reflector.rs:28-30` says the counter advances once per reply. It
  advances once per authorised request, and without a reply exactly for one that
  asks for none (`Reflector.CounterCountsAuthorisedRequests`,
  `Reflector.CountedWithoutReply`); the `wrong_peer` counter is never advanced.
* `agent/src/tasks/plan.rs:194-202` means to prevent catch-up firing. A task exactly
  one interval late still fires twice at one instant (`TaskPlan.FiresTwiceAtOnce`, and
  a run in `PlanRuns.HandedOutTwice`).
* `docs/architecture.md:179-180` gives the effective delay as half the round trip
  plus twice the jitter; `agent/src/collector/mos.rs:118-124` takes half the round
  trip plus the depth of the jitter buffer (`Mos.DelayIsAsDocumented` says when the
  two agree, `Mos.DelayExample` is an input where they do not).
* `agent/src/spool.rs:81-83` says a push is refused only through the byte ceiling.
  That is so exactly when the reserve is below the entry ceiling, which
  `SpoolConfig::new` ensures and a literal configuration need not
  (`ResultSpool.RefusedOnlyByBytes`).
* `server/internal/api/api.go:216-241` acknowledges a batch even when it turned some
  of its reports away, and the agent then drops them. A handled report has a row
  exactly when its key had one, or a report with its key was of an assigned task and
  met no fault (`Delivery.StoredExactly`); one of an unassigned task is acknowledged
  and lost (`Delivery.UnassignedIsLost`).

## Model

| member | source | states |
|---|---|---|
| `Crc16.Crc16Ccitt` | agent/src/proto/mqp.rs:291-300 | The byte-and-bit loop computes the checksum function the theorems below are about, the check value among them. |
| `Crc16.FeedIsBits` | agent/src/proto/mqp.rs:291-300 | The word-at-a-time register does to its bits exactly what feeding the message bit by bit into a 16-cell shift register does. |
| `CrcCheck.CrcStartsFromOnes` | agent/src/proto/mqp.rs:291-300 | For every message, the bits of its checksum are what feeding its bits in order makes of a shift register of sixteen ones. |
| `CrcCheck.CheckValue` | agent/src/proto/mqp.rs:430-434 | The checksum of the nine bytes "123456789" is 0x29B1. |
| `Crc16.FeedBitsLinear` | agent/src/proto/mqp.rs:291-300 | The shift register is linear over exclusive or in both its state and its message. |
| `Crc16.FeedWhole` | agent/src/proto/mqp.rs:291-300 | Sixteen message bits bring the register to zero only when they equal its content; so the register is injective on 16-bit windows. |
| `Crc16.SameCrcIffUnnoticed` | agent/src/proto/mqp.rs:291-300 | Two equally long messages have the same checksum if and only if their difference, fed into a zero register, leaves zero. |
| `Crc16.ResidueIsZero` | agent/src/proto/mqp.rs:291-300 | A message followed by two bytes has checksum zero if and only if those bytes are its checksum. |
| `Crc16.BurstNoticed` | agent/src/proto/mqp.rs:291-300 | No non-empty error confined to sixteen consecutive bits leaves the checksum unchanged. |
| `Crc16.SeventeenUnnoticed` | agent/src/proto/mqp.rs:291-300 | Wherever it falls, some error confined to seventeen consecutive bits does: sixteen is the limit. |
| `Crc16.OddNoticed` | agent/src/proto/mqp.rs:291-300 | No error with an odd number of flipped bits leaves the checksum unchanged. |
| `CrcPeriod.StepIsTimesX` | agent/src/proto/mqp.rs:295-297 | A step of the register multiplies a polynomial by x modulo x^16 + x^12 + x^5 + 1. |
| `CrcPeriod.Period` | agent/src/proto/mqp.rs:291-300 | n steps bring the register back to where it was if and only if n is a multiple of 32767. |
| `CrcPeriod.TwoBitsUnnoticed` | agent/src/proto/mqp.rs:291-300 | Two flipped bits, in a message of any length, leave the checksum unchanged if and only if they are a multiple of 32767 places apart. |
| `Mqp.Header.Encode` | agent/src/proto/mqp.rs:141-169 | A buffer too short is refused untouched; otherwise the first 56 bytes become the header and its checksum and the padding stays. |
| `Mqp.EncodedBytes` | agent/src/proto/mqp.rs:141-169 | Where every field of an encoded header lies and with what value, the letters MQ, the type codes 1 and 2 and the zero reserved bytes included, whether or not the packet would be accepted; the rest of the buffer is untouched. |
| `Bytes.BigEndian` | agent/src/proto/mqp.rs:145-159 | In a field of any width the first byte weighs most. |
| `Mqp.DecodedExactly` | agent/src/proto/mqp.rs:172-230 | A buffer is accepted if and only if it has 56 bytes, opens with MQ, version 1, type 1 or 2 and flags below 16, carries the checksum of its first 54 bytes, and declares what follows the header. |
| `Mqp.DecodedFields` | agent/src/proto/mqp.rs:214-229 | What it is accepted as, field by field. |
| `Mqp.RefusedBecause` | agent/src/proto/mqp.rs:172-193 | Each of the errors up to the flags is given, with the value it names, exactly when its check is the first to fail. |
| `Mqp.RefusedByContent` | agent/src/proto/mqp.rs:195-212 | A wrong checksum, then a wrong length, is reported exactly when everything before it is right, with what was expected and what was found. |
| `Mqp.DecodeEncoded` | agent/src/proto/mqp.rs:141-230 | Decoding undoes encoding if and only if the version is 1, the flags are known ones and the buffer has the declared length. |
| `Mqp.EncodeDecoded` | agent/src/proto/mqp.rs:141-230 | Re-encoding an accepted packet over itself changes nothing if and only if its reserved bytes are zero: decoding drops no other bit. |
| `Mqp.StampT1` | agent/src/proto/mqp.rs:239-248 | Writes T1 and a fresh checksum, or refuses a short buffer untouched. |
| `Mqp.StampT1UpdatesRecord` | agent/src/proto/mqp.rs:239-248 | Stamping T1 over an accepted packet gives one that decodes to the same record with that T1. |
| `Mqp.MakeReplyInPlace` | agent/src/proto/mqp.rs:254-272 | Rewrites type, reply counter, T2, received DSCP and both TTLs and nothing else, or refuses a short buffer untouched. |
| `Mqp.StampT3` | agent/src/proto/mqp.rs:275-284 | Writes T3 and a fresh checksum, or refuses a short buffer untouched. |
| `Mqp.ReflectionUpdatesRecord` | agent/src/proto/mqp.rs:249-284 | For every accepted packet, the in-place rewrite followed by the T3 stamp decodes to the record with exactly the reflector-owned fields replaced, every field written out; reserved bytes and padding survive. |
| `Mqp.AcceptedHasNoResidue` | agent/src/proto/mqp.rs:172-212 | The header of every accepted packet, checksum included, has checksum zero. |
| `Mqp.AcceptedDifferenceUnnoticed` | agent/src/proto/mqp.rs:172-212 | Whatever two accepted packets differ by is an error the checksum cannot see. |
| `Mqp.CorruptionRejected` | agent/src/proto/mqp.rs:172-212 | A packet whose header differs from an accepted one by a burst of at most sixteen bits, by an odd number of bits, or by any two bits, is rejected. |
| `Mqp.TwoBytesRejected` | agent/src/proto/mqp.rs:172-212 | A packet whose header differs from an accepted one in one byte or in two adjacent bytes, checksum bytes included, is rejected. |
| `Twamp.TimestampExactly` | agent/src/proto/twamp.rs:109-120 | A reading becomes the seconds since 1900, 2 208 988 800 before the Unix epoch, modulo 2^32, and the whole ticks of 2^-32 s in its sub-second part. |
| `Twamp.KnownReadings` | agent/src/proto/twamp.rs:109-120 | The Unix epoch, half a second after it, and the reading at which the first NTP era ends in 2036. |
| `Twamp.DurationExactly` | agent/src/proto/twamp.rs:134-148 | For any two timestamps there is a difference if and only if the order is right, and it is the whole nanoseconds in their ticks. |
| `Twamp.RoundTripExactly` | agent/src/proto/twamp.rs:354-363 | The round trip is the total less the turnaround, never below zero; nothing when t4 precedes t1, and the total when t3 precedes t2. |
| `Twamp.ElapsedWithinOneNanosecond` | agent/src/proto/twamp.rs:134-148 | Within one NTP era the elapsed time between two converted readings is never over-reported, and under-reported by at most one nanosecond. |
| `Twamp.RolloverRefused` | agent/src/proto/twamp.rs:109-148 | Readings less than an era apart have a difference if and only if no era rollover falls between them. |
| `Twamp.RoundTripNeedsNoSync` | agent/src/proto/twamp.rs:346-363 | With each pair of readings inside one era of its own clock, the round trip is (t4-t1)-(t3-t2) to within a nanosecond, whatever relates the two clocks. |
| `Twamp.MeasuresPathDelay` | agent/src/proto/twamp.rs:346-363 | For any offset between the clocks, the round trip is the time spent on the two paths, to within a nanosecond. |
| `Twamp.RolloverInRoundTrip` | agent/src/proto/twamp.rs:354-363 | Without assuming eras: the round trip is refused if and only if a rollover falls between t1 and t4, and with a hold of three nanoseconds or more it is right to within one if and only if none falls between t2 and t3. |
| `Twamp.IncredibleTurnaround` | agent/src/proto/twamp.rs:346-363 | The round trip is zero exactly when the total is or the turnaround reaches it, and the untouched total exactly when the turnaround reads as zero or backwards. |
| `Twamp.IncredibleTurnaroundExample` | agent/src/proto/twamp.rs:346-363 | A turnaround of three seconds in a round trip of two makes it zero. |
| `Twamp.ExactTicks` | agent/src/proto/twamp.rs:109-120 | A sub-second part is a whole number of 2^-32 s ticks exactly when it is a multiple of 5^9 ns. |
| `Twamp.ConversionRoundTrip` | agent/src/proto/twamp.rs:109-128 | For every reading, converting to NTP and back loses at most one nanosecond if and only if it is in the first NTP era or in the last seconds its wrapped 64-bit subtraction can stand for, and nothing exactly when, besides, the sub-second part is a multiple of 5^9 ns. |
| `Twamp.ErrorEstimateRoundTrip` | agent/src/proto/twamp.rs:183-196 | An error estimate survives its 16-bit form exactly when its scale fits six bits. |
| `Twamp.ErrorEstimateRewrites` | agent/src/proto/twamp.rs:183-196 | A received error estimate is rewritten unchanged exactly when its must-be-zero bit is zero. |
| `Twamp.SenderPacket.Encode` | agent/src/proto/twamp.rs:220-228 | Writes the fourteen header bytes over the front of the buffer, or refuses a short one untouched. |
| `Twamp.SenderBytes` | agent/src/proto/twamp.rs:220-228 | The fourteen bytes of a request: sequence, timestamp, and the error estimate with its synchronised bit on top and six bits of scale. |
| `Twamp.SenderDecodedExactly` | agent/src/proto/twamp.rs:230-242 | Fewer than 14 bytes and more than 1400 are refused by name; anything else is accepted, field by field. |
| `Twamp.SenderRoundTrip` | agent/src/proto/twamp.rs:220-242 | Decoding undoes encoding exactly when the buffer is not too long and the scale fits six bits. |
| `Twamp.StampSenderTx` | agent/src/proto/twamp.rs:338-344 | Writes T1 at its offset and nothing else, or refuses a short buffer untouched. |
| `Twamp.StampedRequestIsEncoded` | agent/src/proto/twamp.rs:338-344 | Stamping T1 over an encoded request gives the bytes of the request encoded with that T1. |
| `Twamp.ReflectorPacket.Encode` | agent/src/proto/twamp.rs:265-280 | Writes both parts of the 41-byte reply with its must-be-zero fields, or refuses a short buffer untouched. |
| `Twamp.ReflectorBytes` | agent/src/proto/twamp.rs:265-280 | Both parts of a reply, byte by byte, must-be-zero bytes included. |
| `Twamp.ReflectorDecodedExactly` | agent/src/proto/twamp.rs:282-299 | Fewer than 41 bytes and more than 1400 are refused by name; anything else is accepted, field by field. |
| `Twamp.StampReflectorTx` | agent/src/proto/twamp.rs:329-335 | Writes T3 at its offset and nothing else, or refuses a short buffer untouched. |
| `Twamp.StampedReplyDecodes` | agent/src/proto/twamp.rs:265-335 | An encoded and stamped reply decodes to itself with that T3 exactly when the buffer is not too long and both scales fit six bits. |
| `Twamp.ReplyEchoesRequest` | agent/src/proto/twamp.rs:230-335 | For every accepted request, the encoded and stamped reply gives the sender back its own sequence number, T1 and error estimate beside the reflector's T2, T3, counter and TTL, and an error estimate that is not synchronised, of scale 12 and multiplier 1. |
| `Reflector.Registry.Grant` | agent/src/probe/reflector.rs:64-68 | A grant, repeated or not, leaves that session with counter zero and the granted peer, and no other session changed. |
| `Reflector.Registry.Revoke` | agent/src/probe/reflector.rs:70-72 | Removes that session alone and returns how many packets it saw, or nothing for an unknown one. |
| `Reflector.Reflector.TurnRound` | agent/src/probe/reflector.rs:190-215 | Whatever the size of the receive buffer, the packet at its front becomes its reflection. |
| `Reflector.Reflector.Handle` | agent/src/probe/reflector.rs:140-231 | One received packet: which sessions and which statistic move, that a reply goes out if and only if an authorised request asks for one, that the reply decodes to the request's record with the counter, T2, T3, what the kernel told of DSCP and TTL or zero, and a TTL of 64, its padding untouched, and that an unanswered packet leaves the buffer alone. |
| `Reflector.VerdictExactly` | agent/src/probe/reflector.rs:145-190 | What is not a request that decodes is malformed; of the rest those are unauthorised whose session is not granted, or granted to another peer unless to any; and those go unanswered that carry the third flag. |
| `Reflector.TallyExactly` | agent/src/probe/reflector.rs:145-231 | Each verdict moves one statistic by one, a failed send another than a reply, and a request asking for no reply none. |
| `Reflector.CounterCountsAuthorisedRequests` | agent/src/probe/reflector.rs:140-190 | A session's counter and packet count advance by one, the counter modulo 2^32, if and only if a well-formed request of that session arrives from its peer, or from anyone where none is named; it does so without a reply if and only if that request carries NO_REFLECT. |
| `Reflector.CountedWithoutReply` | agent/src/probe/reflector.rs:188-190 | In every session and from every source it accepts, a request asking for no reply advances the counter and gets none. |
| `Reflector.QuietRequestDecodes` | agent/src/proto/mqp.rs:141-230 | Such a packet exists: that request, encoded, decodes to itself. |
| `ProbeRun.Run` | agent/src/probe/sender.rs:70-200 | Refuses an empty run and a packet size below 56 or above 1400 with the right error; otherwise returns the number sent and the samples taken from exactly the events it saw, and every packet it sent decodes to its own numbered, time-stamped probe. |
| `ProbeRun.SentOnTicks` | agent/src/probe/sender.rs:105-155 | Numbers are given out one a tick, whether or not the send succeeds, until the configured count has been tried; the send times are those of the ticks. |
| `ProbeRun.SampleExactly` | agent/src/probe/sender.rs:205-262 | A packet that decodes to a reply to a probe sent no later becomes a sample, and which one, exactly when it comes from the peer, is of this session and is not overdue once the time the reflector held it, never below zero, is taken off. |
| `ProbeRun.NoSample` | agent/src/probe/sender.rs:220-231 | Nothing that does not decode, answers no probe that went out, or came before it went out becomes a sample. |
| `ProbeRun.ProbeIs` | agent/src/probe/sender.rs:134-142 | A probe is a version 1 request of its session with the DSCP echo flag alone, its number, its send time, its DSCP and the length after the header, and zeros elsewhere. |
| `ProbeRun.SampleIsPathDelay` | agent/src/probe/sender.rs:202-262 | A reply yields a sample worth exactly the time on the two paths whatever the offset of the reflector's clock and whatever T1 it echoes, and is dropped exactly when that exceeds the timeout. |
| `ProbeRun.ProbesAreAnswered` | agent/src/probe/reflector.rs:140-190 | A packet that decodes to one of the sender's probes is answered by a reflector holding its session, whose counter moves by one. |
| `ProbeRun.SenderRunsTheSame` | agent/src/probe/sender.rs:105-200 | The sender's own loop over what it sees of a run ends with the progress the whole-system model gives it. |
| `ProbeRun.EveryRunIsConsistent` | agent/src/probe/reflector.rs:161-190 | In every run: replies are numbered 0, 1, 2, ... in the order generated, each answers a request that was sent, and every reply in flight or sampled is one of them. |
| `ProbeRun.CountersFitBelow` | agent/src/collector/stats.rs:223-240 | Pigeonhole: samples whose counters lie below n carry at most n different ones. |
| `ProbeRun.AttributionIsExact` | agent/src/collector/stats.rs:204-250 | In every run over a channel that loses, reorders and duplicates packets, with at most as many samples as counters seen and counters as requests: reported reverse loss, plus the replies generated after the highest counter seen, plus the copied samples, is the true number of replies not accepted; reported forward loss, plus the repeated replies to one request, is the true number of requests unanswered plus those trailing replies; and both are right if and only if there are none of the three. Otherwise all that is missing counts in one direction. Without repeats both are right if and only if nothing trails and nothing was copied, or every request sent was answered and accepted, and the copies are those the session reports. With no reply nothing is attributed. |
| `ProbeRun.AttributionIsSound` | agent/src/collector/stats.rs:204-250 | Without duplicates: reported reverse loss never exceeds the true number of replies not accepted and reported forward loss is never below the true one, both by exactly the replies generated after the highest counter seen, none exactly when the last generated reply was accepted; and the parts sum to what is missing. |
| `ProbeRun.DuplicateHidesLoss` | agent/src/collector/stats.rs:227-236 | A run in which one of two replies is lost and the other comes twice reports no loss at all. |
| `ProbeRun.SecondDecodes` | agent/src/proto/mqp.rs:141-230 | The packet that run delivers twice exists: the reply, encoded, decodes to itself. |
| `Stats.LossPartsAddUp` | agent/src/collector/stats.rs:204-250 | For any samples whatever, the three parts of the loss sum to what is missing, and the percentage, rounded to two decimals, is between 0 and 100. |
| `Stats.LossExactly` | agent/src/collector/stats.rs:204-222 | Sent and received as given; the percentage is that of the missing packets to the nearest hundredth, zero where none were sent; and no direction is claimed without samples or where one carries no counter. |
| `Stats.AttributedExactly` | agent/src/collector/stats.rs:223-250 | With a counter on every sample: what the highest of them shows was generated and did not come back, at most all that is missing, was lost on the way back, and the rest on the way out. |
| `Arithmetic.RoundNearest` | agent/src/collector/stats.rs:337-339 | Rounding gives a whole number of hundredths within half of one, halves away from zero. |
| `Stats.Isqrt` | agent/src/collector/stats.rs:324-335 | Newton's iteration terminates with the r for which r*r <= n < (r+1)*(r+1). |
| `Stats.RootUnique` | agent/src/collector/stats.rs:324-335 | There is only one such r. |
| `Stats.RttStatsOf` | agent/src/collector/stats.rs:134-166 | Nothing for no samples; otherwise, of the microseconds in whatever order: the extremes, the whole mean, the whole root of the mean squared deviation expanded into sums, and the 50th, 95th and 99th nearest-rank percentiles. |
| `Stats.RttStatsOrdered` | agent/src/collector/stats.rs:134-166 | Minimum <= mean <= maximum, deviation <= maximum - minimum, and minimum <= p50 <= p95 <= p99 <= maximum. |
| `Stats.DeviationsSquared` | agent/src/collector/stats.rs:146-156 | The squared deviations from any value sum to the squares, less twice the value times the sum, plus its square for each. |
| `Stats.PercentileIsNearestRank` | agent/src/collector/stats.rs:314-320 | The p-th percentile is one of the samples, and the values at or above it are exactly those that at least p percent of the samples do not exceed. |
| `Stats.JitterStatsOf` | agent/src/collector/stats.rs:168-202 | The windowed loop over samples in sequence order computes the jitter function; nothing without two samples or two consecutive numbers. |
| `Stats.JitterIffNeighbours` | agent/src/collector/stats.rs:169-191 | For any samples, duplicates included, there are jitter figures if and only if some two have neighbouring sequence numbers. |
| `Stats.IpdvWithinGaps` | agent/src/collector/stats.rs:173-193 | For any samples, whichever copy the sort puts first, the IPDV figure lies between the smallest and the largest difference of neighbours. |
| `Stats.IpdvIsMeanGap` | agent/src/collector/stats.rs:173-193 | With distinct sequence numbers the IPDV figure is the mean difference over all pairs of samples whose numbers are neighbours, in whatever order they come. |
| `Stats.PdvIsPercentile` | agent/src/collector/stats.rs:195-201 | The PDV figure is one of the absolute differences from the 50th percentile, and the values at or above it are exactly those that at least 95 percent of them do not exceed. |
| `Stats.JitterIgnoresArrival` | agent/src/collector/stats.rs:173-176 | Jitter does not depend on the order the replies came home in, as long as copies of one number agree. |
| `Stats.JitterDependsOnCopies` | agent/src/collector/stats.rs:173-187 | Two copies of one number with different round trips: the figure depends on which comes first. |
| `Stats.ReorderStatsOf` | agent/src/collector/stats.rs:252-284 | With distinct arrival indices the high-water pass gives the number of samples some sample with a lower index and a higher sequence number precedes (section 3.3 of RFC 4737), and the largest such difference of sequence numbers, or zero; duplicated is the number of samples minus the number of distinct sequence numbers. |
| `Stats.LateAreReordered` | agent/src/collector/stats.rs:259-283 | With distinct arrival indices, counting along the arrivals counts exactly the samples that came after one sent later. |
| `Stats.NothingLateIffInOrder` | agent/src/collector/stats.rs:259-283 | Both reordering figures are zero if and only if arrival indices are in the order of sequence numbers. |
| `Stats.NoReorderingIffInOrder` | agent/src/collector/stats.rs:259-283 | The same of the bare sequence of arrivals. |
| `Mos.FiguresOf` | agent/src/collector/mos.rs:33-58 | The impairment, robustness and scale of each codec are those of the table. |
| `Mos.DelayCost` | agent/src/collector/mos.rs:162-168 | Free below 100 ms; from there 24 thousandths a millisecond of the whole delay, and past 177.3 ms another 110 of what exceeds it. |
| `Mos.LateShare` | agent/src/collector/mos.rs:128-135 | Jitter past the buffer is late in proportion to the jitter, at most all of it. |
| `Mos.LossSum` | agent/src/collector/mos.rs:136 | Measured and late loss are added, and kept between 0 and 100 percent. |
| `Mos.LossCost` | agent/src/collector/mos.rs:138-141 | The loss impairment solves (Ie_eff - Ie)(Ppl + Bpl) = (95 - Ie) Ppl, equation 7-27 of ITU-T G.107. |
| `Mos.RatingLeft` | agent/src/collector/mos.rs:118-148 | The rating is the top of the codec's scale less the costs of delay, half the round trip and the buffer, and of loss, kept within the scale. |
| `Mos.Reported` | agent/src/collector/mos.rs:150-156 | The codec, and the rating, its score and the delay to the nearest hundredth. |
| `Mos.NarrowbandScore` | agent/src/collector/mos.rs:178-196 | A narrowband rating scores 1 + 0.035 R + 7e-6 R (R-60)(100-R) between 0 and 100, kept between 1 and 4.5, and the ends outside. |
| `Mos.WidebandScore` | agent/src/collector/mos.rs:178-196 | A wideband rating scores as the narrowband one at the same part of its scale of 129, with the points above the floor stretched from 3.5 to 3.8. |
| `Mos.DelayMonotone` | agent/src/collector/mos.rs:158-168 | The delay impairment never falls as delay grows, knee included. |
| `Mos.LossImpairmentMonotone` | agent/src/collector/mos.rs:136-141 | The loss impairment never falls as loss grows, nor as robustness to loss shrinks. |
| `Mos.CubicDips` | agent/src/collector/mos.rs:178-196 | The cubic of ITU-T G.107 Annex B is not monotone: it falls below its value at zero, the floor. |
| `Mos.CubicRises` | agent/src/collector/mos.rs:178-196 | Once the cubic has reached the floor it never falls again up to R = 100. |
| `Mos.CurveMonotone` | agent/src/collector/mos.rs:178-196 | Clamped, the curve is monotone on all ratings. |
| `Mos.RToMosMonotone` | agent/src/collector/mos.rs:178-196 | For every codec a higher rating never scores lower, wideband scaling included. |
| `Mos.ScoreMonotone` | agent/src/collector/mos.rs:112-156 | For every codec the score and the rating, rounding included, never rise when round-trip time, jitter and loss do not fall. |
| `Mos.ScoreInRange` | agent/src/collector/mos.rs:112-200 | The rating is between 0 and the codec's maximum, and the score between 1 and 4.5 (narrowband) or 4.8 (wideband). |
| `Mos.DelayIsAsDocumented` | agent/src/collector/mos.rs:115-124 | The effective delay is half the round trip plus twice the jitter if and only if the buffer is twice the jitter deep. |
| `Mos.DelayExample` | agent/src/collector/mos.rs:115-124 | With the default buffer and no jitter a round trip of 100 ms counts as 110 ms of delay. |
| `Mos.JitterWithinBufferIsAbsorbed` | agent/src/collector/mos.rs:120-136 | Jitter no greater than the buffer depth leaves every score as if there were none. |
| `Mos.ScaleEnds` | agent/src/collector/mos.rs:170-196 | A perfect narrowband path scores 4.41, a perfect wideband one 4.8, and a rating of zero 1.0. |
| `Mos.ConcealmentNeverHurts` | agent/src/collector/mos.rs:33-46 | On the same inputs G.711 with concealment never scores below plain G.711. |
| `ResultSpool.SpoolConfig.New` | agent/src/spool.rs:56-65 | The reserve is strictly below the entry ceiling, and the byte ceiling is positive, for every request. |
| `ResultSpool.ConfigExactly` | agent/src/spool.rs:56-65 | Both ceilings are as asked for, and at least one; the reserve is the whole part of the share of the entries asked for, the share kept between nothing and nine tenths. |
| `ResultSpool.PushExactly` | agent/src/spool.rs:142-174 | A push keeps the first entries up to the reserve, drops the oldest of the others, no more than it takes for the newcomer to fit under both ceilings, and appends it; if it fits in no way, only the first entries are left. |
| `ResultSpool.EvictionsAreFewest` | agent/src/spool.rs:145-164 | A push evicts the fewest unprotected entries that make room: one fewer would not do, unless nothing does. |
| `ResultSpool.RefusedIffNothingHelps` | agent/src/spool.rs:145-154 | A push is refused if and only if evicting every unprotected entry still leaves no room, and then only the onset is left. |
| `ResultSpool.RefusedOnlyByBytes` | agent/src/spool.rs:55-83 | In queues within their ceilings a refusal means that the onset's bytes plus the newcomer exceed the byte ceiling, if and only if the reserve is below the entry ceiling. |
| `ResultSpool.RefusedWithBytesToSpare` | agent/src/spool.rs:145-154 | With a reserve at or above the entry ceiling some queue within its ceilings refuses a newcomer of no bytes. |
| `ResultSpool.Spool.Push` | agent/src/spool.rs:142-174 | The new queue, both drop counters and the returned verdict with its eviction count, for every state and size. |
| `ResultSpool.PushKeepsOnsetAndRecent` | agent/src/spool.rs:142-174 | An admitted push leaves the onset, the longest suffix of the rest that fits with the newcomer, and the newcomer. |
| `ResultSpool.PushFits` | agent/src/spool.rs:142-179 | A push keeps both ceilings. |
| `ResultSpool.OnsetAndRecentSurvive` | agent/src/spool.rs:142-174 | After any sequence of pushes into any spool within its ceilings the queue is the first of what it held and accepted, up to the reserve, then one contiguous suffix of it: at most one gap, right after the onset; both ceilings hold. |
| `ResultSpool.EndsAreHeld` | agent/src/spool.rs:142-174 | In such a spool the reserve protects the leftovers first and of the results accepted since only the first reserve less the leftovers; of the rest at most the newest, as many as the entry ceiling leaves room for, are held. |
| `ResultSpool.Spool.Take` | agent/src/spool.rs:186-196 | Removes and returns the oldest results, at most the number asked for, and drops nothing. |
| `ResultSpool.Spool.ReturnUnsent` | agent/src/spool.rs:203-223 | The backward loop with eviction from the back leaves the re-admitted queue, and counts every entry lost in both counters. |
| `ResultSpool.FittingPrefixIsLongest` | agent/src/spool.rs:205-222 | A prefix fits both ceilings if and only if it is no longer than the fitting prefix. |
| `ResultSpool.ReturnKeepsLongestPrefix` | agent/src/spool.rs:203-223 | Whatever the queue held, re-admission leaves the longest prefix of batch followed by queue that fits both ceilings, if and only if the oldest returned result fits alone (with nothing returned, the queue itself); only otherwise is a ceiling exceeded. |
| `ResultSpool.TakeThenReturn` | agent/src/spool.rs:186-223 | Taking a batch and returning it at once is the identity, with nothing dropped. |
| `ResultSpool.Spool.ClearDropped` | agent/src/spool.rs:226-228 | Clears the per-outage counter and nothing else. |
| `Delivery.Agent.Enqueue` | agent/src/agent.rs:651-660 | Enqueueing is one step of the delivery protocol, and both drop counters grow by what the queue lost. |
| `Delivery.Agent.HeartbeatSent` | agent/src/agent.rs:288-293 | A heartbeat that succeeds sets the spool's unreported drop count to zero and one that fails leaves it; the queue and the lifetime total stay as they were. |
| `Delivery.ClearedOnlyByAcknowledgement` | agent/src/agent.rs:288-293 | An acknowledged heartbeat or submission leaves nothing unreported; any other step adds to the count just what it adds to the lifetime total; a failed heartbeat changes nothing. |
| `Delivery.Agent.SubmitBatch` | agent/src/agent.rs:662-687 | One submission, acknowledged or lost at any point, is one step of the protocol: the batch is the oldest results, up to a hundred; acknowledged, it is gone and the drop count is zero, and lost, the spool is as it was. |
| `Delivery.Agent.DrainSpool` | agent/src/agent.rs:662-687 | The drain loop takes exactly the steps up to the first lost submission or short batch. |
| `Delivery.DeliveryAccounting` | agent/src/agent.rs:651-687 | In every run: results produced = acknowledged + held + dropped; acknowledged results followed by the queue are a subsequence of production order; drops reported plus the unreported count equal the total, and those reported are the sum, over acknowledged messages, of the count pending just before each; ceilings hold; stored rows have distinct keys; and a report has a row if and only if its key had one from the start or some submission had one with its key, of an assigned task, tried without a fault; and a task is closed if and only if it was from the start or some such report was of it. |
| `Delivery.LostSubmissionIsHarmless` | agent/src/agent.rs:676-685 | A submission whose acknowledgement is lost, however much of it the controller applied, leaves the agent exactly as it was. |
| `Delivery.AnsweredDrainEmpties` | agent/src/agent.rs:662-687 | With every submission answered, one drain delivers the whole queue in order, in however many batches, and drops nothing. |
| `Delivery.StoredExactly` | server/internal/api/api.go:216-241 | After a batch is handled a report has a row if and only if it had one before or the batch held one with its key, of an assigned task, that met no fault. |
| `Delivery.ClosedExactly` | server/internal/store/store.go:512-517 | After a batch is handled a task is closed if and only if it was before, or it is assigned and the batch held a report of it that met no fault, duplicates included. |
| `Delivery.FirstOfAKeyIsStored` | server/internal/api/api.go:218-236 | Every new row is the first report of its key that the batch held without a fault. |
| `Delivery.VerdictExactly` | server/internal/api/api.go:223-235 | A report of an unassigned task is refused first, then one that meets a fault; of the others those are duplicates whose task and end time are in the table. |
| `Delivery.AcknowledgedIsStored` | agent/src/agent.rs:668-675 | In every run without faults an acknowledged result is stored if and only if its task is assigned or its key had a row from the start; with faults, if and only if, besides, one with its key was tried without one. |
| `Delivery.UnassignedIsLost` | server/internal/api/api.go:223-227 | A report of an unassigned task is produced, acknowledged, no longer held, not counted as dropped, and has no row. |
| `Delivery.OutageKeepsOnsetAndRecent` | agent/src/agent.rs:651-687 | From any spool within its ceilings, through any enqueues, lost submissions and heartbeats, the queue is the leftovers and the results accepted since with at most one gap; the reserve protects the leftovers first, of the others only what remains of it, and beyond it only the newest are held. |
| `Delivery.ReserveIsForTheOnset` | agent/src/spool.rs:24-26 | The reserve protects as many of the results accepted since the last acknowledgement as it can hold if and only if nothing was left over, or it has room for everything, or there is nothing to protect or no reserve. |
| `Delivery.OnsetLost` | agent/src/spool.rs:24-26 | A run: 101 results, one batch acknowledged and the next lost, 101 more; with a reserve of one the left-over result is kept and the first of the new outage is gone. |
| `Delivery.IdempotentOnKeyOnly` | server/internal/store/store.go:413-475 | After one report of a task is stored, a second for that task is a duplicate if and only if it has the same end time or was already stored. |
| `Delivery.OneTaskTwoRows` | server/internal/store/store.go:413-475 | Two reports of one task that ended a second apart both get a row. |
| `TaskPlan.Plan.Accept` | agent/src/tasks/plan.rs:122-152 | A recurring lease does to the plan what `TaskPlan.RefreshKeepsSchedule` says, a one-shot what `TaskPlan.OneShotQueued` does. |
| `TaskPlan.OneShotQueued` | agent/src/tasks/plan.rs:142-152 | A one-shot joins the end of the queue with its deadline counted from now, unless one with its identifier is there; nothing else moves. |
| `TaskPlan.Plan.ReapExpired` | agent/src/tasks/plan.rs:158-168 | Removes exactly the one-shots whose deadline has come, keeps the rest in order and returns the removed ones in order. |
| `TaskPlan.Plan.NextDue` | agent/src/tasks/plan.rs:178-205 | Returns the oldest one-shot, else a recurring task due first of all if it is due, whatever the table order, and moves that one alone: with i its own interval, or the plan's where it has none, from d to d + i, or to now + i when now - d > i; else nothing. |
| `TaskPlan.FiredExactly` | agent/src/tasks/plan.rs:190-203 | Firing moves the due time of that task alone, by its own interval or the plan's, on the grid or from now. |
| `TaskPlan.Plan.TimeUntilDue` | agent/src/tasks/plan.rs:208-216 | Zero with one-shots pending, else the shortest wait over the table; nothing for an empty plan. |
| `TaskPlan.Plan.Remove` | agent/src/tasks/plan.rs:219-221 | Drops that recurring task alone and says whether it was there. |
| `TaskPlan.Plan.ReconcileRecurring` | agent/src/tasks/plan.rs:229-233 | Keeps exactly the named recurring tasks and returns how many were dropped. |
| `TaskPlan.SomePick` | agent/src/tasks/plan.rs:184-189 | Something can be picked if and only if something is due. |
| `TaskPlan.TimeUntilDueExact` | agent/src/tasks/plan.rs:178-216 | When the wait is d, the next call at any later instant returns a task if and only if at least d has passed, however ties fall; there is no wait if and only if the plan is empty. |
| `TaskPlan.FiresTwiceAtOnce` | agent/src/tasks/plan.rs:194-202 | A fired task is due again at the same instant if and only if it was exactly one interval, its own or the plan's, late or that interval is zero. |
| `PlanRuns.HandedOutTwice` | agent/src/tasks/plan.rs:194-202 | A task exactly one interval late is handed out by two calls at the same reading. |
| `TaskPlan.RefreshKeepsSchedule` | agent/src/tasks/plan.rs:124-132 | A recurring lease replaces the task of its identifier, drops its deadline and keeps its due time, or makes it due at once if it is new; no other task and no one-shot is touched. |
| `TaskPlan.ReapedAreFresh` | agent/src/tasks/plan.rs:158-168 | Nothing left after reaping is past its deadline, and everything reaped is. |
| `TaskPlan.ReapingSplits` | agent/src/tasks/plan.rs:158-168 | Reaping neither loses nor duplicates a one-shot: each is kept or returned as skipped. |
| `PlanRuns.ReapingInOrder` | agent/src/tasks/plan.rs:158-168 | Those kept and those skipped are each in the order they were queued in. |
| `TaskPlan.ExpiresOnTime` | agent/src/tasks/plan.rs:142-167 | A newly queued one-shot survives a reaping if and only if it has no limit or its limit, counted from when it was accepted, has not passed. |
| `PlanRuns.NoDrift` | agent/src/tasks/plan.rs:194-202 | While a task stays in the plan at one interval, its own or the plan's where it has none, through any other operations, its due time is never below first due + firings * interval, and equals it if and only if no firing was more than an interval late. |
| `PlanRuns.NoBursts` | agent/src/tasks/plan.rs:194-202 | From any state, however stale, a task kept in the plan fires at most floor(W / interval) + 2 times in a window of length W. |
| `PlanRuns.WaitingTurns` | agent/src/tasks/plan.rs:178-205 | While a task waits, through any operations, the calls at readings past its due time with no one-shot pending number at most the tasks then due no later plus those that joined ahead of it since. |
| `PlanRuns.NotStarved` | agent/src/tasks/plan.rs:178-205 | A task among n recurring ones is returned within n calls at readings past its due time with no one-shot pending, whatever the intervals, zero included, and whatever the ties, through any other operations that keep it, plus one call for each task that joins ahead of it. |
| `PlanRuns.NotStarvedAtOnce` | agent/src/tasks/plan.rs:178-205 | With readings at or past its due time, while no task ahead of it has a zero interval, it is returned within 2n-1 calls with no one-shot pending, through any other operations that keep it, plus one call for each task that joins at the due time. |
| `PlanRuns.StarvedIffZeroNeighbour` | agent/src/tasks/plan.rs:184-202 | A due task can be passed over for any number of calls if and only if some other task due no later has a zero interval. |
| `PlanRuns.StarvedOnlyAtTheInstant` | agent/src/tasks/plan.rs:194-202 | However long a task is passed over, at most n-1 of the calls read a clock past its due time. |
| `PlanRuns.OneShotConservation` | agent/src/tasks/plan.rs:142-182 | In every run each one-shot queued is in exactly one of queued, returned and skipped; queued ids are distinct; and queued and returned one-shots keep the order they were queued in. |
| `Mesh.Dedupe` | server/internal/scheduler/mesh.go:263-280 | The loop with its seen-table computes the deduplicated plan. |
| `Mesh.Orient` | server/internal/scheduler/mesh.go:130-149 | The orientation loop keeps, flips or excludes each wanted pair. |
| `Mesh.HubAndSpoke` | server/internal/scheduler/mesh.go:199-233 | Every spoke probes every hub and hubs probe each other; with no hub, a ring and a note. |
| `Mesh.FullMesh` | server/internal/scheduler/mesh.go:175-185 | Every ordered pair of distinct positions. |
| `Mesh.RingOf` | server/internal/scheduler/mesh.go:189-195 | The i-th pair is agent i and the next, wrapping, for every i. |
| `Mesh.PartialMesh` | server/internal/scheduler/mesh.go:237-259 | Each agent probes the peers the rota gives it for the cycle, at a fanout which `MeshGuarantees.PartialWants` fixes. |
| `Mesh.PlanMesh` | server/internal/scheduler/mesh.go:83-152 | The planner computes the plan the guarantees are about, exclusions included. |
| `MeshGuarantees.DedupedIs` | server/internal/scheduler/mesh.go:263-280 | Deduplication leaves no repeated directed pair and no self-pair, and loses no other. |
| `MeshGuarantees.PlanIsSafe` | server/internal/scheduler/mesh.go:83-158 | In every plan each pairing has a sender that is not reflector-only and a reflector reachable inbound, both listed, online, speaking the protocol and with an address, and distinct; and no pairing repeats. |
| `MeshGuarantees.EveryWantedPairIsSettled` | server/internal/scheduler/mesh.go:130-151 | Every candidate pair that can run forwards is returned in that direction, every other that can run backwards is returned flipped, and the rest are reported excluded. |
| `MeshGuarantees.ExclusionNamesTheConstraint` | server/internal/scheduler/mesh.go:160-171 | An exclusion names both agents in the order wanted, and each reason is given exactly when that constraint binds. |
| `MeshGuarantees.ExcludedExactly` | server/internal/scheduler/mesh.go:92-152 | With two fit agents or more, what is reported is exactly: each agent that is offline, else does not speak the protocol, else has no address, by name; a hub plan without hubs; and each wanted pair that cannot run either way. |
| `MeshGuarantees.TooFewAgents` | server/internal/scheduler/mesh.go:106-111 | With fewer than two fit agents nothing is planned, and besides the unfit only one left alone is reported. |
| `MeshGuarantees.FallsBackToRing` | server/internal/scheduler/mesh.go:113-125 | A hub plan without hubs and a plan the scheduler does not know measure what a ring does. |
| `MeshGuarantees.PlannedExactly` | server/internal/scheduler/mesh.go:130-151 | For every plan, a directed pair is measured if and only if it can run and is a candidate, or its reverse is a candidate that cannot run. |
| `MeshGuarantees.FullMeshMeasuresEveryPair` | server/internal/scheduler/mesh.go:173-185 | In the full plan one agent probes another if and only if both are online, speak the protocol and have an address, the first is not reflector-only and the second is reachable inbound. |
| `MeshGuarantees.RingMeasuresNeighbours` | server/internal/scheduler/mesh.go:187-195 | In the ring plan an agent probes the next, and the previous exactly where that one could not probe it. |
| `MeshGuarantees.HubPlanMeasuresHubs` | server/internal/scheduler/mesh.go:197-233 | In a hub plan with a hub, an agent probes another exactly if it can and the other is a hub, or it is itself a hub and the other could not probe it. |
| `MeshGuarantees.OrderIsIrrelevant` | server/internal/scheduler/mesh.go:86-90 | With distinct names the plan depends on the set of agents, not on the order they are listed in. |
| `MeshGuarantees.MembersInOrder` | server/internal/scheduler/mesh.go:86-104 | The fit agents are planned over in the order of their names. |
| `MeshGuarantees.NameOrder` | server/internal/scheduler/mesh.go:90 | Names compare character by character, a prefix first. |
| `MeshGuarantees.PartialIsRegular` | server/internal/scheduler/mesh.go:237-259 | In each cycle every agent probes exactly f different others and is probed by exactly f different others. |
| `MeshGuarantees.PartialCoversMesh` | server/internal/scheduler/mesh.go:250-255 | Any ceil((n-1)/f) consecutive cycles have every agent probe every other. |
| `MeshGuarantees.FewerCyclesMissAPair` | server/internal/scheduler/mesh.go:250-255 | In m consecutive cycles with m f < n-1 every agent has another it never probes: no fewer than ceil((n-1)/f) will do. |
| `MeshGuarantees.PartialMeasuresEveryPair` | server/internal/scheduler/mesh.go:237-259 | Within any ceil((n-1)/f) consecutive cycles every ordered pair of usable agents is wanted, and measured, measured flipped, or reported excluded; f is the fanout asked for, or one, or n-1, whichever of the limits it passes. |
| `MeshGuarantees.PartialLoad` | server/internal/scheduler/mesh.go:237-280 | With a fanout between 1 and n-1 each agent is in exactly twice as many candidate sessions of a cycle, below that in two, above it in 2(n-1); flips and deduplication add none. |
| `MeshGuarantees.PartialWants` | server/internal/scheduler/mesh.go:237-259 | In one cycle each agent wants to probe as many different others as the fanout asked for, one where it is less than one, and all of them where it is n-1 or more. |
| `MeshGuarantees.PartialPlanIs` | server/internal/scheduler/mesh.go:130-151 | In a cycle an agent probes exactly the peers of its own that it can probe and those due to probe it that cannot. |
| `MeshGuarantees.PartialSends` | server/internal/scheduler/mesh.go:130-151 | What an agent sends is its fanout, one and n-1 its limits, less its peers out of reach, plus the sessions it takes over; so it stays within its fanout if and only if it takes over no more than it gives up. |
| `MeshGuarantees.FanoutExceededByFlip` | server/internal/scheduler/mesh.go:138-141 | Three agents at fanout one, the first behind NAT: the first sends twice. |
| `MeshGuarantees.NegativeCycles` | server/internal/scheduler/mesh.go:250-255 | For any cycle number every agent gets peers that exist and are not itself if and only if the number is not negative, or the fanout is one and it is a multiple of n-1. |

## Left out

- Sockets, control messages, asynchronous timing, HTTP, authentication, enrolment, JSON, the dashboard and deployment: only the resulting steps and clock readings appear.
- SQL, connection pools, rollups, purging, leasing and expiry of tasks in the controller, and which group a result is filed under: saving is one step on a table of rows and a set of assignments.
- The DSCP statistics, the DSCP and TTL fields of a sample, the count of late pacing ticks, and socket DSCP marking on replies.
- `ErrorEstimate::as_duration`, the defaults, display strings and logging.
- Discovery, capture analysis, path tracing, RouterOS parsing, the command line and configuration.
- Rounding of 64-bit floats: percentages, percentile ranks and scores are exact rationals or reals, rounded to two decimals where the code does; the percentiles taken are whole percents.
- Overflow of machine integers other than the counter, the NTP fields and the header fields: byte totals, sums of squares, 64-bit instants and the sequence counters of the plan do not wrap in the model.
- The library sorts are modelled by a stable insertion sort; where order among equals could matter, the theorems assume distinct keys or do not depend on it.
- CRC errors of more than two bits, an even number, spread over more than sixteen: Crc16.SameCrcIffUnnoticed says exactly which go unnoticed, but they are not enumerated.
- ProbeRun.AttributionIsExact: the channel carries headers rather than bytes, the session is granted once and not revoked during the run, and fewer than 2^32 replies are generated in it, which holds unless requests are duplicated.
- ProbeRun.AttributionIsSound: the case without duplicates; ProbeRun.AttributionIsExact covers them.
- ProbeRun.Run: the order in which a tick and an arrival are taken when both are ready is part of the input.
- Twamp.RoundTripNeedsNoSync: each pair of readings lies in one NTP era; Twamp.RolloverInRoundTrip says what happens otherwise: a rollover between t1 and t4 is refused, one between t2 and t3 leaves the hold in.
- Twamp.MeasuresPathDelay: clocks that step or drift during the exchange are not covered.
- PlanRuns.OneShotConservation: the agent's loop reaps with an earlier clock reading than the one it picks with, so nothing is claimed about a deadline passing in between.
- MeshGuarantees.EveryWantedPairIsSettled: assumes distinct agent identifiers, as the database guarantees.
- Mesh.PartialMesh: cycle numbers are not negative; MeshGuarantees.NegativeCycles says which negative ones would give an index out of range or a self-pair.
- Mesh.PlanMesh: the same for the partial plan; the other plans take any cycle number.
- Stats.IpdvIsMeanGap: sequence numbers are distinct; with copies the library's unstable sort leaves open which one is compared, and Stats.JitterIffNeighbours and Stats.IpdvWithinGaps say what holds all the same.
- Stats.JitterIgnoresArrival: copies of one sequence number carry the same round trip; Stats.JitterDependsOnCopies shows why.
- Stats.ReorderStatsOf: the figures of the samples themselves assume distinct arrival indices, which every run gives them (ProbeRun.EveryRunIsConsistent); without, those along the sorted arrivals are all that is claimed.
- Delivery.DeliveryAccounting: the size of a result is the same each time it is serialised.
