# Scanner and Robot: a verified model

Dafny model of the decision logic of the Scanner and the Robot, with the senders, stores and
clocks around it replaced by parameters. `dafny verify dfyconfig.toml` checks all of it.

- **Ikigai Box WATCH protocol** (`IkigaiBox`, `IkigaiGates`, `IkigaiFormation`, `IkigaiWatch`, `WatchRun`,
  `WatchStream`, `WatchSlide`, `WatchLate`). A detector is rerun on every closed candle and fed its own previous output in the
  coordinates of a sliding window; a cursor per symbol and timeframe delivers at most one card per candle.
  `Sound` says what an observation asserts about its frame; it is the invariant of the whole protocol.
- **Protection and closure** (`BoxStop`, `Protection`, `FlatClosure`). The tick-rounded, fee-aware
  STOP of a Box position, the trendline STOP and TAKE, the decision while the STOP is unproven, and
  the proof from durable rows that an emergency close settled a trade.
- **Breakout and retest lifecycle** (`Lifecycle`, `ScannerCursor`). Replay, restart and
  stale-candle handling over frozen geometry, its projection to one-minute candles, and the bounded
  catch-up request.
- **Consensus envelope** (`ConsensusFit`, `ConsensusBoundary`, `ConsensusSupport`, `ConsensusOrder`,
  `ConsensusPair`, `ConsensusFigures`, `ConsensusPairing`, `ConsensusTerminal`, `ConsensusSelection`, `ConsensusMemo`, `ConsensusRecency`, `ConsensusCase`, `OutcomeMatrix`). Least
  squares, touch clusters, pairs and their figures, terminal width evidence, canonical ranking, and the
  memo that must agree with the uncached computation.
- **L-shape** (`LShape`, `LShapeRobot`, `LShapeFigure`). Detector, signal plan, frozen terms, retest machine and the
  entry gate.
- **Lifecycle posts** (`Outbox`). Retrying delivery with a bounded memory of what was sent.

`Market` and `Wrappers` hold the shared rows, lines, directions and options, `Ranking` the stable sort and
the comparison of tuples, `Arithmetic` the algebra of products and quotients. Loops and objects of
the source are methods and classes here; each is proved against a function or predicate, and the
main results are lemmas about those and about whole runs. Beside the main specifications stand readings
of them in the raw inputs and outputs: bars, prices, quantities, counts.

Prices are exact reals, candle indices and milliseconds are integers.

## Where the code and its own description differ

- A WATCH card whose delivery failed keeps its window-relative identity. Once the window slides, the
  lookup on the next candle misses it (`WatchStream.RetryNeedsFixedWindow`, `WatchSlide.FailedCardIsForgotten`).
- The stream announces a setup's breakout on the candle that breaks its shelf. When the observed shelf
  holds but has grown too long, the search may fall back to a shorter one that an earlier bar left: the
  setup is then frozen as broken and never announced (`WatchLate.BreakIsAnnouncedUnlessLate`,
  `WatchLate.LateBreakIsSilent`).
- `box_stop_for_actual_entry` may report that no compliant STOP exists although one does, when the
  current STOP is off the tick grid (`BoxStop.CompletenessCondition`, `BoxStop.OffTickStopIsMissed`). Its error that no positive
  STOP pays means that every price pays (`BoxStop.NoPositiveStopMeansOffTick`).
- The catch-up docstring says older events cannot change an expired outcome. They do exactly when a
  breakout and a retest preceded the apex (`ScannerCursor.CatchupAgreesUnlessRetested`, `ScannerCursor.ShortcutLosesRetest`).
- Every figure the L-shape detector can build gets a plan of exactly 2:1 at its level, and the entry
  gate requires 2:1 after fees at a LIMIT past the level, so none of them is ever entered,
  accepted terms or not (`LShapeRobot.NoDetectedFigureIsEntered`, `LShapeFigure.AcceptedFigureIsNotEntered`).
- A trade that entered before the start or after its own exit has its closed post delivered without or
  before its opened post (`Outbox.OrderNeedsProperTrade`), and with more than 200 trades the memory
  forgets posts the collector then repeats (`Outbox.MemoryBoundIsTight`).
- The lot total compared in `prove_flat_closure` always equals the walked net quantity, so that check
  never rejects (`FlatClosure.AttributeLot`). An `ExactMemo` without pair slots evicts the entry it is
  about to return (`ConsensusMemo.ExactMemo.Pairs`).

## Model

| member | source | states |
|---|---|---|
| `IkigaiBox.CounterCloseIsSomeClose` | geometry/ikigai_box.py:167-195 | The running-best pass asks whether any inner close gives back too large a share of the best progress closed before it: the flag holds exactly when such a bar exists |
| `IkigaiBox.CounterCloseStays` | geometry/ikigai_box.py:167-195 | Extending an impulse never repairs it: a material counter close found in a prefix remains one of the longer impulse |
| `IkigaiBox.FindMaterialCounterClose` | geometry/ikigai_box.py:167-195 | The loop with a running best close decides that condition, in both directions and for both impulse directions |
| `IkigaiBox.QualifiedImpulseAndBox` | geometry/ikigai_box.py:198-282 | What later code relies on in an accepted figure: A and B are the anchor bars' extremes and the extremes of the whole impulse, the span and ATR are usable, and the box stays within 12% beyond B and one of the two retraces; the full condition is the next row |
| `IkigaiBox.AcceptedIffPasses` | geometry/ikigai_box.py:198-282 | An impulse and its box are accepted exactly when A is a reversal, no bar strictly inside turns back or gives back too much, B is the extreme, the span beats both minima, the ending is strong or a rejected wick, and the box fits with the retrace that ending permits |
| `IkigaiGates.GatesInBars` | geometry/ikigai_box.py:167-282 | The gates bar by bar, LONG and SHORT: a strict three-bar turn at A and none against it inside, no later close taking back too much of an earlier one, no bar beyond A, B beyond all others, mean true range, first open to last close, bars counted in direction, rejection, retrace, extension and width, each as an inequality between prices |
| `IkigaiGates.AnyCloseDecides` | geometry/ikigai_box.py:167-195 | Measured from the best close before it or from any close before it, a counter close is the same: the running best is a shortcut |
| `IkigaiGates.CandidateInBars` | geometry/ikigai_box.py:485-565 | A shelf yields an observation exactly when the lengths fit, impulse and shelf pass those gates, the newest bar does not clear a shelf that ends on it and some later bar clears an older one, and no later bar trades at A + 1.618 (B - A) |
| `IkigaiBox.FirstExit` | geometry/ikigai_box.py:514-526 | The exit is the first later bar closing beyond the shelf on the impulse side, and no exit means no such bar |
| `IkigaiFormation.DetectFormation` | geometry/ikigai_box.py:284-399 | The nested argmax returns the accepted cut of the frame of the highest rank (nearness to an extension, compactness of the shelf, strength of the impulse, earlier anchors), the shorter second leg on a tie, and none exactly when no cut is accepted |
| `IkigaiFormation.DetectionIsUnique` | geometry/ikigai_box.py:284-399 | The detected formation is determined by the frame and parameters alone, not by the order of the loops |
| `IkigaiFormation.SameMeritSameImpulse` | geometry/ikigai_box.py:365-378 | Two accepted cuts of equal rank have the same direction, and are the same cut when their second legs are equally long, so keeping the first on a tie is well defined |
| `IkigaiFormation.ChampionAfter` | geometry/ikigai_box.py:365-378 | One turn of the argmax keeps the loop invariant: the best so far beats every cut already visited |
| `IkigaiFormation.SearchDirection` | geometry/ikigai_box.py:323-399 | A whole direction's search leaves the champion of everything visited before together with every cut of that direction |
| `IkigaiFormation.ZoneIsProgress` | geometry/ikigai_box.py:350-364 | The second leg's progress measure reaches 0.618 of the impulse exactly when some of its bars reached F(1.618) |
| `IkigaiFormation.ProposalIsWatched` | geometry/ikigai_box.py:485-580 | The two detectors agree: a figure the confirmation search would propose is a WATCH candidate with the same geometry exactly when a close has left its shelf and the second leg is still short of F(1.618) |
| `IkigaiFormation.CutIsAccepted` | geometry/ikigai_box.py:323-364 | A cut is accepted exactly when its lengths fit, impulse and shelf pass every gate, the second leg reached past B by a share of the impulse between the limits, and its closes gained at least 22% of it |
| `IkigaiFormation.FigureShowsCut` | geometry/ikigai_box.py:381-399 | The figure of a cut shows that cut: its bars, the extremes of shelf and second leg, A and B, and the levels at 1.618 and 2.618 |
| `IkigaiFormation.BestFigureIsReturned` | geometry/ikigai_box.py:365-399 | Read off the figures themselves: the one returned is an accepted cut, and no accepted cut ends nearer to one of its two extensions in units of its impulse, nor as near with a narrower shelf, nor that with a larger impulse in mean true ranges, nor that with earlier anchors or a shorter second leg |
| `IkigaiWatch.CandidateIsSound` | geometry/ikigai_box.py:485-565 | Every observation the search builds has true anchors and shelf, the first exit of its frame, and no bar after B at F(1.618) — including the shelf bars, which no explicit test looks at |
| `IkigaiWatch.CandidateExit` | geometry/ikigai_box.py:514-565 | The exit of an observation is the first later bar that closes beyond every bar of its shelf; a READY one ends on the newest bar |
| `IkigaiWatch.ShelfStaysInsideImpulse` | geometry/ikigai_box.py:259-281 | Every bar of an observed shelf trades strictly between the origin A and the F(1.618) zone |
| `IkigaiWatch.LatestShelf` | geometry/ikigai_box.py:566-580 | Of all shelves for one identity the search keeps a candidate such that no later shelf is one |
| `IkigaiWatch.FreshIsSound` | geometry/ikigai_box.py:485-580 | The observation kept per identity is sound for the frame and carries that identity |
| `IkigaiWatch.Examine` | geometry/ikigai_box.py:527-565 | The innermost loop body observes exactly the candidate of that shelf and identity |
| `IkigaiWatch.MeasureShelf` | geometry/ikigai_box.py:490-526 | A shelf dropped early could not have produced a candidate for any identity |
| `IkigaiWatch.SearchDirection` | geometry/ikigai_box.py:485-580 | The three nested loops with rank replacement leave, for every identity of the direction, exactly its latest candidate, and touch nothing of the other direction |
| `IkigaiWatch.ValidatePrevious` | geometry/ikigai_box.py:448-483 | The previous output is rejected with the first objection found in order, and otherwise becomes the table by identity |
| `IkigaiWatch.CarryIsSound` | geometry/ikigai_box.py:586-625 | Carrying a previous observation one candle on, whether re-observed, frozen or merely kept, yields one that is sound for the longer frame |
| `IkigaiWatch.FirstExitExtends` | geometry/ikigai_box.py:514-526 | A first exit never changes when a candle is appended; without one, only the new candle can be it |
| `IkigaiWatch.CarryState` | geometry/ikigai_box.py:586-625 | The in-place carry pass gives every previous identity its carried observation and rank and leaves all other identities as they were |
| `IkigaiWatch.Ordered` | geometry/ikigai_box.py:627-632 | The final sort lists every identity once, strongest rank first |
| `IkigaiWatch.Select` | geometry/ikigai_box.py:485-625 | Search and carry together hold exactly the detected observation of every identity, with its rank |
| `IkigaiWatch.DetectWatches` | geometry/ikigai_box.py:402-632 | The detector's whole answer: nothing on a short frame, the first objection when the previous output is rejected, and otherwise exactly the detected observations, one per identity, in rank order |
| `WatchRun.Shift` | ikigai_box_watch_stream.py:49-68 | The re-basing loop computes the translated state |
| `WatchRun.ShiftedMembers` | ikigai_box_watch_stream.py:49-68 | The translated state holds exactly the previous observations moved by the offset whose anchors are still inside the window |
| `WatchRun.TranslatedIsSound` | ikigai_box_watch_stream.py:49-68 | An observation that is sound in one window is sound, translated, in every window still holding its bars |
| `WatchRun.StepNeverRejects` | geometry/ikigai_box.py:448-483 | A sound output fed back with one more candle, after any window slide, passes every validation, and the new output is sound again |
| `WatchRun.BreakoutIsFrozen` | geometry/ikigai_box.py:586-625 | Once a breakout is observed, the record of that identity may change only in its as-of index |
| `WatchRun.OneDirectionPerAnchors` | geometry/ikigai_box.py:198-258 | Two sound observations with the same anchors have the same direction |
| `WatchRun.RunStaysSound` | geometry/ikigai_box.py:402-632 | Over every append-only run with sliding windows, every fed-back state and every output is sound for its frame |
| `WatchRun.RunNeverRejects` | geometry/ikigai_box.py:451-483 | In runs whose every call may be rejected, over any append-only history and sliding windows, no call is: each answer is an output, and it is sound for its frame |
| `WatchRun.Answer` | geometry/ikigai_box.py:402-632 | The detector answers with an output it may report or with the first objection to its input |
| `WatchRun.AttemptsAreDetections` | geometry/ikigai_box.py:451-483 | Every run of calls that may be rejected is a run of accepted ones, so the results about runs cover all of them |
| `WatchRun.FrozenThroughRun` | geometry/ikigai_box.py:586-625 | While an identity stays in consecutive outputs after its breakout, its box bounds, anchors and exit bar are the same in absolute coordinates |
| `WatchRun.TouchedNeverReturns` | geometry/ikigai_box.py:537-547 | After a candle touched an identity's zone, no later output of the run reports that identity |
| `WatchRun.AcceptedWhenFitting` | geometry/ikigai_box.py:451-483 | A previous output is accepted exactly when every record is of the previous candle, carries the prices of its bars, has the exit its phase asks for and repeats no identity; a rejection names what is wrong with the first record that fails |
| `WatchRun.AnswerIsRecent` | geometry/ikigai_box.py:485-600 | Of every accepted call: no reported shelf ended more than the longest second leg ago |
| `WatchRun.ReportedWhileLive` | geometry/ikigai_box.py:586-600 | Of every accepted call: a setup observed before is reported exactly when its shelf is that recent and no bar after B reached its zone |
| `WatchRun.WhatBecomesOf` | geometry/ikigai_box.py:586-625 | What is reported of a setup observed before: a breakout unchanged, a READY shelf broken by the newest close alone, otherwise the latest shelf found, or the old one where none is found |
| `WatchRun.NewIsFound` | geometry/ikigai_box.py:485-580 | A setup not observed before is reported exactly when the search finds a shelf for it, as the latest one |
| `WatchRun.AnswerIsOrdered` | geometry/ikigai_box.py:566-632 | The order of an answer in its own indices: later shelves first, setups broken before or now among those of the newest candle, at one shelf end the longer shelf found now, then the broken one, and records merely kept behind them |
| `WatchRun.RunIsRecent` | geometry/ikigai_box.py:589-600 | Over a whole run with sliding windows, no output reports a shelf that ended more than the longest second leg ago |
| `WatchRun.RunReportsWhileLive` | geometry/ikigai_box.py:586-600 | Over a whole run, a setup whose anchors are still inside the window is reported by the next output exactly when its shelf is that recent and no candle of the history up to there reached its zone |
| `WatchStream.NewestAnnounced` | ikigai_box_watch_stream.py:154-162 | The card chosen has the latest anchors among the new shelves ending, and first breakouts happening, on this very candle; none means there is no such observation |
| `WatchStream.Choose` | ikigai_box_watch_stream.py:145-162 | A pending card is looked up again by identity before a new one is considered, and any choice is a current observation |
| `WatchStream.LatestAnchorsWin` | ikigai_box_watch_stream.py:129-162 | With nothing pending the card chosen is a new shelf that ends on this candle or a first breakout on it, and of all those the one whose impulse ends, and then starts, latest; none means there is none |
| `WatchStream.PollLeaves` | ikigai_box_watch_stream.py:71-181 | What every poll leaves, read off its candles: irregular ones nothing, a candle that neither repeats nor directly follows a silent restart, a repeated one the same slot with its pending card tried again, a following one the new frame; a card is pending afterwards exactly when it was tried and not accepted |
| `WatchStream.Stream.Bootstrap` | ikigai_box_watch_stream.py:36-46 | Replaces one cursor by a baseline for the frame that announces nothing; all other cursors keep their value |
| `WatchStream.Stream.Redetect` | ikigai_box_watch_stream.py:123-127 | Feeding the cursor's own watches to the detector in the new window is never rejected, and the result is sound there |
| `WatchStream.Stream.Advance` | ikigai_box_watch_stream.py:123-181 | A continuing candle re-detects from the cursor's own watches, chooses a card, stores the cursor and clears pending exactly when the send was accepted |
| `WatchStream.Stream.Process` | ikigai_box_watch_stream.py:71-181 | One poll, every branch: too few candles drop the cursor, a changed or discontinuous candle restarts it, a repeated candle only retries, a continuing one advances; all cursors stay sound |
| `WatchStream.SlotsAreSound` | ikigai_box_watch_stream.py:71-181 | Along every run of polls, restarts included, the held cursor describes its frame soundly |
| `WatchStream.AttemptedCardIsLive` | ikigai_box_watch_stream.py:145-181 | Every card ever attempted is a current observation whose zone no bar up to the newest closed one has reached |
| `WatchStream.OneDeliveryPerCandle` | ikigai_box_watch_stream.py:90-106 | When polls never go back to an older newest candle, two delivered cards always belong to different closed candles |
| `WatchStream.RetryNeedsFixedWindow` | ikigai_box_watch_stream.py:145-153 | A card whose delivery failed, and whose setup is still observed on the next candle, is found again exactly when the window did not slide: the pending identity is not translated |
| `WatchStream.SlideForgetsPending` | ikigai_box_watch_stream.py:145-153 | A step from any sound slot with a pending card to a new candle in a window of the same length never attempts that card, and no longer holds it as pending |
| `WatchStream.RunForgetsPending` | ikigai_box_watch_stream.py:145-181 | In every run, a card whose delivery failed is not attempted by a next poll that slides the window by one bar |
| `WatchSlide.FailedCardIsForgotten` | ikigai_box_watch_stream.py:71-181 | Three polls over twenty-four concrete candles under the default parameters: the card of a new shelf fails, the window slides, the setup is still observed, and nothing is attempted |
| `WatchLate.BreakIsAnnouncedUnlessLate` | ikigai_box_watch_stream.py:129-144 | When the newest candle turns an observed READY setup into a breakout, it is announced if and only if the candle closes beyond the observed shelf or the search finds no shelf of the setup that an earlier bar had left; otherwise a strictly shorter shelf, broken before, replaces the observed one |
| `WatchLate.BreakStaysSilent` | ikigai_box_watch_stream.py:129-144 | In every run, a breakout that an earlier candle observed is announced on no later candle while its setup stays observed |
| `WatchLate.LateBreakIsSilent` | geometry/ikigai_box.py:586-625 | Twelve concrete frames under the default parameters: every run over them observes one setup as READY eleven times and then, nine bars late, as a breakout it does not announce |
| `WatchLate.LateRun` | geometry/ikigai_box.py:402-632 | There is such a run: the detector, fed its own output frame after frame, ends in the late breakout |
| `WatchRun.DetectThrough` | geometry/ikigai_box.py:402-632 | Every sequence of windows over a history has a run: the detector called on each with its own last output |
| `IkigaiWatch.LatestIs` | geometry/ikigai_box.py:566-580 | A candidate shelf with no later one is the shelf the search keeps |
| `BoxStop.RatioIsBound` | robot_protection.py:363-384 | The net 2:1 test after fees is one price bound, reached from the correct side for LONG and SHORT |
| `BoxStop.TickInsideIsNearest` | robot_protection.py:385-390 | Rounding goes to the nearest tick not wider than the price: every other such tick is further inside |
| `BoxStop.ReturnedStopIsSound` | robot_protection.py:363-399 | A returned STOP is positive, on the tick, beyond P4, pays at least 2:1 net, and is not wider than the current nor the frozen one |
| `BoxStop.ReturnedStopIsLoosest` | robot_protection.py:378-399 | No compliant tick between the current STOP and the result was passed over |
| `BoxStop.ReturnsWhen` | robot_protection.py:343-399 | Past the guards the procedure succeeds exactly when the current STOP is compliant or the rounded bound is inside it and still beyond P4 |
| `BoxStop.AlignedIsComplete` | robot_protection.py:343-399 | With a tick-aligned current STOP the procedure returns exactly when some compliant price exists |
| `BoxStop.CompletenessCondition` | robot_protection.py:343-399 | For every input past the guards: the procedure finds a STOP whenever one exists if and only if the current STOP is on the tick, or the rounded bound is at least as tight, or no tick lies between it and P4 |
| `BoxStop.OffTickStopIsMissed` | robot_protection.py:378-399 | Concrete terms with an aligned frozen STOP and an existing STOP off the tick: a compliant, tighter tick exists and the procedure reports none |
| `BoxStop.GuardErrorsAreTrue` | robot_protection.py:343-361 | Each guard error is reported exactly when its condition is the first to fail, for LONG and SHORT: TAKE ahead, P4 strictly between entry and STOP, existing STOP inside the frozen one, a TAKE that nets something |
| `BoxStop.FilledStop` | robot_protection.py:297-399 | The whole answer in cash flows, LONG and SHORT: a returned STOP is a tick beyond P4 at which the TAKE nets at least twice what the STOP loses, not wider than the STOP in force and the farthest such from the entry; past the guards and on the tick it is returned exactly when such a price exists |
| `BoxStop.NoPositiveStopMeansOffTick` | robot_protection.py:378-383 | The error that no positive STOP pays is reported exactly for a protectable LONG with its STOP off the tick for which even the price zero would pay: the tick was missed, not the ratio |
| `BoxStop.FillsNeverWiden` | robot_protection.py:299-399 | Over any sequence of fills, failures included, the active STOP never widens and never passes the frozen risk |
| `Protection.EveryFillGetsAStop` | robot_protection.py:115-156 | One tick beyond the extreme exactly when that price is on the loss side within 2%, and otherwise exactly 2% away: never an unusable STOP |
| `Protection.StopInPrices` | robot_protection.py:115-156 | The structural STOP in prices: one tick beyond the extreme if that lies on the loss side within 2%, and otherwise 0.98 or 1.02 of the entry |
| `Protection.PlanExistsUnlessOvertaken` | robot_protection.py:196-244 | A plan fails only when the target is not ahead, the entry has passed the TAKE, or the entry has passed the STOP in force |
| `Protection.TakeIsInsideTarget` | robot_protection.py:174-193 | The TAKE is nine tenths of the way to the target, strictly between reference and target, and positive |
| `Protection.PlanKeepsStop` | robot_protection.py:159-244 | A plan's STOP risks at most 2% of the entry and does not widen the STOP in force |
| `Protection.PlanInPrices` | robot_protection.py:159-244 | The plan in prices: TAKE at a tenth of the reference and nine tenths of the target, STOP the tighter of the structural one and the one in force, entry between them, and no plan for a target that is not ahead |
| `Protection.RecoveryAnswers` | robot_protection.py:601-646 | Every answer of a poll and exactly when it is given, among them PROTECTED for a proven STOP and TAKE and TAKE recovery for a proven STOP alone |
| `Protection.TopUpsNeverWiden` | robot_protection.py:159-171 | Over any fills and top-ups the STOP at any later point is not wider than at any earlier one |
| `Protection.RequestsAreCounted` | robot_protection.py:601-646 | Over any polls and any in-flight flags: one close request per poll that finds the position exposed, with a reason to close, and no close in flight |
| `Protection.AtMostOneRequest` | robot_protection.py:601-646 | Over any polls and flags, at most one close is requested if and only if after a request the flag is up at every later poll that still needs a close |
| `Protection.CloseWithinOneGap` | robot_protection.py:601-646 | While a position stays exposed and polls are at most one gap apart, the first poll past the deadline comes within one gap of it, and from there every poll requests the close or reports one in flight, whatever the flags |
| `FlatClosure.NetSplits` | robot_flat_closure.py:239-265 | The signed walk is additive over concatenation |
| `FlatClosure.LotIsUnique` | robot_flat_closure.py:239-299 | At most one suffix of the history is an open lot: it starts right after the last flat point |
| `FlatClosure.OrderOwnerMap` | robot_flat_closure.py:111-132 | The map exists exactly when candidate ids and order ids are unambiguous, and then is the owner and status of every order |
| `FlatClosure.EmergencyCandidate` | robot_flat_closure.py:135-160 | The candidate found is the only one carrying the marker; none means none or several carry it |
| `FlatClosure.WalkNet` | robot_flat_closure.py:239-265 | The walk ends at the signed sum, and the remembered index is the last point at which the sum was zero |
| `FlatClosure.AttributeLot` | robot_flat_closure.py:267-299 | Attribution succeeds exactly when every fill is owned, tallies each owner's quantity, and the running total is the lot's net quantity, so the later total check can never fail |
| `FlatClosure.ReconstructLot` | robot_flat_closure.py:239-299 | The lot start is returned exactly when a lot of entry fills only nets to the closing quantity |
| `FlatClosure.CheckRows` | robot_flat_closure.py:184-237 | The guards on ownership, flat position, symbol and timestamps hold exactly as stated |
| `FlatClosure.ExplainEmergency` | robot_flat_closure.py:302-320 | Returns the marked candidate exactly when it is invalidated, distinct from the trade, part of the lot and spans the close |
| `FlatClosure.ProveFlatClosure` | robot_flat_closure.py:163-358 | Evidence is returned exactly when the durable rows show a lot and a marker satisfying the declarative claim, and then is the evidence of such a pair |
| `FlatClosure.WitnessesAreUnique` | robot_flat_closure.py:163-358 | The rows determine the lot and the emergency candidate: the evidence is not a choice |
| `FlatClosure.ClaimIsInTheRows` | robot_flat_closure.py:163-327 | The claim is what the rows say, in both directions: sides, quantities bought and sold, owners of orders, versions and times, with no walk and no map in between |
| `FlatClosure.EvidenceNamesRows` | robot_flat_closure.py:338-358 | The evidence names the closing execution, one row per fill of the lot with a candidate that owns its order, and the marked candidate; its rows account for the trade's and the marked candidate's quantities |
| `FlatClosure.ProfitFromClosingSide` | robot_flat_closure.py:322-336 | From the closing side: a Sell earns its price less the average entry on the trade's quantity, a Buy the reverse, so profit is positive exactly when the exit lies on the profit side; the percentage is of the notional after the pro-rata fee |
| `FlatClosure.ClosureNetsToZero` | robot_flat_closure.py:239-299 | Whenever the claim holds, all executions of the symbol together net to zero |
| `FlatClosure.SharesAddUp` | robot_flat_closure.py:267-299 | The owners' quantities sum to the lot's net quantity: nothing is lost or attributed twice |
| `FlatClosure.ClosureConserves` | robot_flat_closure.py:322-336 | The owners' quantities sum to the closing quantity and their pro-rata fees sum to the closing fee |
| `FlatClosure.TradeIsStrictPart` | robot_flat_closure.py:302-336 | The trade's own quantity is strictly smaller than the aggregate closing quantity |
| `FlatClosure.SettledHistoryKeepsEvidence` | robot_flat_closure.py:239-358 | Prepending executions that net to zero keeps every claim with the very same evidence |
| `FlatClosure.SettledHistoryIsIrrelevant` | robot_flat_closure.py:239-358 | Prepending executions that net to zero never changes whether closure can be proved |
| `Lifecycle.ReplayClosedCandles` | robot_state_machine.py:281-302 | The loop that stops at the first terminal phase or error returns exactly the fold's state and events |
| `Lifecycle.TerminalAbsorbs` | robot_state_machine.py:296-302 | Stopping early loses nothing: further candles leave a terminal state unchanged |
| `Lifecycle.ReplayEndsInFinal` | robot_state_machine.py:281-302 | On well-formed candles replay never fails and ends in the state reached by processing all of them |
| `Lifecycle.ReplaySplits` | robot_state_machine.py:281-302 | Replaying a concatenation is replaying the first part and continuing with the second |
| `Lifecycle.ReplayMeaning` | robot_state_machine.py:195-302 | The final phase, breakout and retest are those of the first close beyond the boundary and the first later touch, both before the first candle at or past the apex, counting only candles newer than all before |
| `Lifecycle.ReplayInPrices` | robot_state_machine.py:195-302 | The same in prices from the anchor: a retest is detected exactly when a candle closes beyond its line and a later one comes back to it, both newer than all before and short of the apex; otherwise it expires exactly when the anchor or a newer candle is at or past the apex |
| `Lifecycle.ErrorIsInverted` | robot_state_machine.py:195-278 | Replay fails only on a candle that would be read and whose high is below its low |
| `Lifecycle.StaleCandlesAreNoOps` | robot_state_machine.py:215-221 | Removing every stale or repeated candle never changes the final state |
| `Lifecycle.RunsStayOrdered` | robot_state_machine.py:195-332 | Through any interleaving of candles and restarts: anchor < breakout < retest < apex whenever a retest is detected |
| `Lifecycle.TerminalIsForever` | robot_state_machine.py:195-332 | No continuation of a run, restarts included, leaves a terminal phase |
| `Lifecycle.RestartAgreesUnlessSkipped` | robot_state_machine.py:305-332 | Jumping over missed candles ends in the phase of replaying them exactly when they held no touch (waiting for the retest), no breakout (waiting for it before the apex), or no breakout followed by a retest (at the apex) |
| `ScannerCursor.ApexIsTheIntersection` | geometry/apex.py:98-171 | The apex lies on both lines and is their only common point |
| `ScannerCursor.ApexUnlessParallel` | geometry/apex.py:83-102 | There is an apex exactly when the slopes differ by at least one billionth |
| `ScannerCursor.ProjectionKeepsPrices` | scanner_geometry_cursor.py:79-104 | The projected line has the price of the source line at every corresponding position, between candles too |
| `ScannerCursor.ProjectionKeepsBoundary` | scanner_geometry_cursor.py:79-104 | k source candles are k times the interval in minutes, at the same boundary price and on the same side of the apex |
| `ScannerCursor.ProjectionKeepsApex` | scanner_geometry_cursor.py:79-104 | Lines that meet at the apex meet, projected, at the projected apex and the same price |
| `ScannerCursor.ProjectionErrors` | scanner_geometry_cursor.py:79-104 | Only a timeframe that is not positive or a negative index cannot be projected; anchor index and direction are kept |
| `ScannerCursor.OrderedUntilApex` | scanner_geometry_cursor.py:52-108 | Lines ordered at the anchor are ordered at every index before the apex, the only indices the lifecycle acts on |
| `ScannerCursor.BreakoutLeavesChannel` | robot_state_machine.py:195-278 | A breakout the lifecycle records closes outside both lines |
| `ScannerCursor.LoadCatchup` | scanner_geometry_cursor.py:319-354 | The loader's loop over the frame returns the declared result for every frame, errors included |
| `ScannerCursor.CatchupIsComplete` | scanner_geometry_cursor.py:319-354 | A successful answer is complete: from the apex on the newest closed candle alone, before it every minute after the anchor in order, each read from the frame |
| `ScannerCursor.CatchupErrors` | scanner_geometry_cursor.py:319-354 | Each error names what is wrong: too short a frame, a newest closed candle before the anchor, off the minute, or malformed; or some malformed row |
| `ScannerCursor.LimitIsTight` | scanner_geometry_cursor.py:319-321 | The request is the smallest of at least three whose last closed candle may stand at the apex |
| `ScannerCursor.RequestSuffices` | scanner_geometry_cursor.py:319-354 | On a gap-free answer of the requested size that is still before the apex, the incompleteness error cannot occur and the result is every minute after the anchor |
| `ScannerCursor.ConsecutiveIsNeverStale` | robot_state_machine.py:215-221 | Replaying consecutive candles from the anchor never meets a stale one |
| `ScannerCursor.CatchupIsNeverStale` | scanner_geometry_cursor.py:285-354 | A gap-free catch-up replayed from initialization yields no stale event |
| `ScannerCursor.ShortcutAgreesUnlessRetested` | scanner_geometry_cursor.py:299-305 | The newest-candle shortcut gives the phase of the full replay exactly when the range holds no breakout followed by a retest before the apex; otherwise full replay ends in a detected retest |
| `ScannerCursor.CatchupAgreesUnlessRetested` | scanner_geometry_cursor.py:285-354 | On every gap-free frame, before and past the apex, what the loader returns replays to the phase of replaying every closed minute after the anchor, except exactly when the newest closed candle is at or past the apex and the full range holds a breakout followed by a retest |
| `ScannerCursor.ShortcutLosesRetest` | scanner_geometry_cursor.py:331-332 | Three concrete minutes on which the shortcut reports expiry and the full replay a detected retest |
| `Outbox.SortedIsOrdered` | robot_lifecycle_posts.py:84-102 | The collector's sort keeps every post and orders them by time, opened before closed, then trade |
| `Outbox.Poster.MarkNotified` | robot_lifecycle_posts.py:77-81 | Appends an id only if new and keeps the newest 200; the other list is untouched |
| `Outbox.Poster.CollectNew` | robot_lifecycle_posts.py:84-102 | Collects, in delivery order, exactly the posts that are due and not remembered |
| `Outbox.Poster.Poll` | telegram_monitoring.py:384-412 | One poll with arbitrary failures: a failed post blocks the later posts of its trade, everything else is delivered and remembered |
| `Outbox.ClosedOnlyAfterOpened` | telegram_monitoring.py:396-412 | Over every run with any failures, a trade's closed post is delivered only after its opened post |
| `Outbox.OrderNeedsProperTrade` | robot_lifecycle_posts.py:84-102 | The condition is exact: for a trade that closed after the start, one undisturbed poll keeps the order if and only if it entered at or after the start and not after its exit |
| `Outbox.MemoryIsLog` | robot_lifecycle_posts.py:77-81 | While at most 200 trades are ever due, the memory of a kind is exactly its delivery log, without repeats |
| `Outbox.DeliveredAtMostOnce` | robot_lifecycle_posts.py:77-102 | Under the same bound no post is ever delivered twice, whatever fails in between |
| `Outbox.MemoryBoundIsTight` | robot_lifecycle_posts.py:77-81 | After a poll that delivered all opened posts of fresh trades, the next poll has nothing to repeat exactly when there were at most 200 |
| `LShape.ExtremeCandidates` | geometry/l_shape.py:301-328 | The backward running-maximum scan finds exactly the extremes of the quantified definition, most prominent first |
| `LShape.OriginBelow` | geometry/l_shape.py:412-431 | The origin is the nearest bar satisfying the reversal definition, and none means there is none |
| `LShape.ReversalOrigin` | geometry/l_shape.py:412-431 | The loop finds that nearest origin |
| `LShape.LastPeak` | geometry/l_shape.py:434-453 | The bar returned is the last one printing the outermost level of the window |
| `LShape.TroughCandle` | geometry/l_shape.py:367-386 | The trough candle is the first one with the most extreme retreat |
| `LShape.QualifyExtreme` | geometry/l_shape.py:331-409 | All gates of the figure in order, with the measured formation |
| `LShape.DetectAt` | geometry/l_shape.py:286-328 | The figure returned belongs to the most prominent qualifying extreme, LONG before SHORT, and none means no extreme of either side qualifies |
| `LShape.DetectionIsUnique` | geometry/l_shape.py:286-328 | That specification determines the answer |
| `LShape.VerdictInPrices` | geometry/l_shape.py:286-453 | The verdict in prices, LONG and SHORT apart: a figure is a confirmed turn, an impulse to its outermost price, a trough inside the level and the origin and a candle that clears the level, LONG unless no LONG shape exists, with the most prominent extreme; its level, body edge, depth and target are those of its bars; and no figure means no such shape |
| `LShape.VerdictIgnoresFuture` | geometry/l_shape.py:191-222 | A verdict at a breakout candle is the same whatever candles follow |
| `LShape.FormationIsShaped` | geometry/l_shape.py:367-409 | Every figure built from valid candles is oriented, with positive depth inside the level and its trough at least that deep |
| `LShape.PlanIsAlwaysTheFallback` | geometry/l_shape.py:247-283 | For every figure the structural STOP would risk at least the whole reward, so the plan is the ratio fallback at exactly 2:1, and only the potential can reject it |
| `LShapeRobot.RobotAcceptsEligiblePlans` | robot_l_shape.py:107-159 | For every positive-price figure the Robot accepts the snapshot exactly when the Scanner calls the plan eligible and the figure is oriented |
| `LShapeRobot.TermsErrors` | robot_l_shape.py:107-159 | Why a snapshot is refused, each reason exactly when it is the first to apply |
| `LShapeRobot.DetectedFiguresAgree` | l_shape_scanner.py:79-101 | On every detected figure Scanner eligibility and Robot acceptance coincide, and both mean the potential minimum |
| `LShapeRobot.ProcessClosedCandle` | robot_l_shape.py:259-302 | Only a waiting machine and a newer candle move; then the cursor is the candle, a retest is detected exactly when its range crosses the level strictly inside STOP and target, and waiting goes on exactly when it stays strictly between level and target |
| `LShapeRobot.CandleInPrices` | robot_l_shape.py:259-302 | One candle that is read, in prices: STOP or target reached invalidates, with the event that says which, the level alone is a retest, nothing waits |
| `LShapeRobot.RunMeaning` | robot_l_shape.py:229-302 | Every run ends as its first deciding fresh candle says, and waits when there is none |
| `LShapeRobot.RunInPrices` | robot_l_shape.py:229-302 | A whole run in prices: it waits exactly while no candle read reaches any of the three prices, and ends in a retest exactly when the first that does reaches the level alone |
| `LShapeRobot.RetestSawNoStopOrTarget` | robot_l_shape.py:259-302 | A run that reached RETEST_DETECTED saw no fresh candle at the STOP or target up to and including the retest candle, which is the first to touch the level |
| `LShapeRobot.DecisionFixesPhase` | robot_l_shape.py:229-302 | The first deciding candle alone fixes the phase: STOP or target on it wins over a touch |
| `LShapeRobot.LimitIsThroughTheLevel` | robot_l_shape.py:312-343 | After tick rounding the LIMIT lies more than one and at most two ticks past the level towards the target |
| `LShapeRobot.LimitExists` | robot_l_shape.py:333-341 | There is no LIMIT exactly for a raw price that is not positive, for a SHORT a level within two ticks of nothing |
| `LShapeRobot.GateInCash` | terminal/application/robot_breakout_monitor.py:2120-2147 | The gate in cash flows: a retest order is allowed exactly when its LIMIT exists, the target nets something, the STOP loses something, and the target at least twice as much, fees paid on both sides |
| `LShapeRobot.GateNeedsMoreThanTwo` | terminal/application/robot_breakout_monitor.py:2120-2147 | Terms whose level offers at most twice its risk never pass the entry gate, whatever the tick and fee |
| `LShapeRobot.NoDetectedFigureIsEntered` | terminal/application/robot_breakout_monitor.py:2120-2147 | Detector, plan and gate together: no figure the detector can build ever gets a retest order, although its terms are accepted |
| `LShapeFigure.FigureIsDetected` | geometry/l_shape.py:286-328 | Sixteen concrete candles under the default thresholds on which the detector returns a LONG figure |
| `LShapeFigure.AcceptedFigureIsNotEntered` | terminal/application/robot_breakout_monitor.py:2120-2147 | That figure is detected, its plan has no rejection, the Robot accepts its terms, and the entry gate refuses it whatever the tick and fee |
| `ConsensusFit.ResidualsBalance` | geometry/consensus_boundary.py:76-83 | Residuals of the refit sum to zero and do not correlate with the index |
| `ConsensusFit.ErrorAboveRefit` | geometry/consensus_boundary.py:76-83 | Any line's squared error is the refit's plus the squared distance between the two lines |
| `ConsensusFit.RefitIsLeastSquares` | geometry/consensus_boundary.py:76-83 | No line has a smaller squared error, and only the refit itself attains it |
| `ConsensusBoundary.AnchorsAreInliers` | geometry/consensus_boundary.py:149-165 | Both anchors are inliers of their own seed |
| `ConsensusBoundary.BuildTouchClusters` | geometry/consensus_boundary.py:86-110 | The loop over adjacent contacts builds the clusters |
| `ConsensusBoundary.ClustersCutAtSeparations` | geometry/consensus_boundary.py:86-110 | The clusters are the contacts in order, and a contact is in the next cluster after its predecessor exactly when the two are separated, and otherwise in the same one |
| `ConsensusBoundary.SupportDeterminesBoundary` | geometry/consensus_boundary.py:160-203 | Seeds with the same inliers give the same boundary, residuals and excursions included, up to the seed recorded, or both give none |
| `ConsensusBoundary.BuildBoundaries` | geometry/consensus_boundary.py:149-203 | One boundary per inlier set that any seed supports, carrying the earliest of its seeds |
| `ConsensusBoundary.BySupportIsUnique` | geometry/consensus_boundary.py:160-203 | The deduplicated result does not depend on the order in which seeds are enumerated |
| `ConsensusBoundary.BoundaryIsSupported` | geometry/consensus_boundary.py:160-203 | Every boundary found is the least-squares line of its inliers, all of which the refit keeps in the band, its clusters cut the support in order, and 0 <= mean residual <= largest residual <= band |
| `ConsensusSupport.InliersAreNear` | geometry/consensus_boundary.py:149-157 | A seed's inliers are exactly the pivots within the band, in ATR at the pivot, of the line through its two anchors |
| `ConsensusSupport.ReportedWhenKept` | geometry/consensus_boundary.py:149-170 | An inlier set has a boundary exactly when some seed has these inliers and the line refitted to them keeps them near and is a price at both ends |
| `ConsensusSupport.EarliestSeedIsKept` | geometry/consensus_boundary.py:160-163 | The boundary of an inlier set carries a seed no later than any seed that supports it |
| `ConsensusSupport.BoundaryMeasures` | geometry/consensus_boundary.py:164-199 | What a boundary measures: contacts cut by separations, as excursions the pivots of its interval that stick out on the outer side, the mean and largest distance of its inliers in ATR |
| `ConsensusSupport.SeparatedLeaves` | geometry/consensus_boundary.py:86-110 | Two contacts are separated exactly when some bar strictly between them has its body inside the line by more than the separation in ATR |
| `ConsensusOrder.LeadsIsTotal` | geometry/consensus_boundary.py:200-203 | Any two boundaries of a side are ordered by evidence, then seed, then inliers, and both ways only if seed and inliers are the same |
| `ConsensusOrder.BuildBoundaryConsensus` | geometry/consensus_boundary.py:113-203 | The reported boundaries are those of every supported inlier set, each once, strongest evidence first |
| `ConsensusOrder.ConsensusIsUnique` | geometry/consensus_boundary.py:126-128 | Evidence and episode determine the reported list, order included: no enumeration order shows in it |
| `ConsensusOrder.ReportIsRanked` | geometry/consensus_boundary.py:184-203 | Read off the boundaries: each one listed is no weaker than those after it, by held bodies, more touches, a longer support, smaller mean and largest residual, fewer excursions, earlier seed, earlier inliers |
| `ConsensusOrder.SpanNeverDecides` | geometry/consensus_boundary.py:20-29 | The support span never decides between two boundaries: the coverage ahead of it orders and ties alike |
| `ConsensusPairing.CanonicalIsLatest` | geometry/consensus_pair.py:357-392 | The boundaries that end up paired are some of the given ones, exactly one of each identity, with a latest seed |
| `ConsensusPairing.CanonicalOfDistinct` | geometry/consensus_pair.py:357-392 | Boundaries of different identities are all paired |
| `ConsensusPairing.CanonicalIgnoresOrder` | geometry/consensus_pair.py:357-362 | Which boundaries are paired does not depend on their order of arrival, as long as seeds tell those of one identity apart |
| `ConsensusPair.TouchEvents` | geometry/consensus_pair.py:95-106 | Each cluster of either side counts once, at its first contact in the episode, sorted by index, side and cluster |
| `ConsensusFigures.ContactsInTime` | geometry/consensus_pair.py:95-106 | Contacts are listed by candle, upper before lower on one candle |
| `ConsensusFigures.ContactsAreFirst` | geometry/consensus_pair.py:95-106 | Each contact is the first one inside the episode of a cluster of its boundary, with the others of that cluster |
| `ConsensusPair.AlternatingEvents` | geometry/consensus_pair.py:109-118 | The pass that overwrites the last element while the side repeats collapses each run to its last contact |
| `ConsensusPair.AlternatingIsLongest` | geometry/consensus_pair.py:109-118 | The collapsed contacts are a side-alternating subsequence, and none is longer |
| `ConsensusPair.SegmentEvidence` | geometry/consensus_pair.py:156-201 | Departure and reach between two events hold exactly as the quantified definitions say |
| `ConsensusPair.CountSwings` | geometry/consensus_pair.py:245-271 | The counting loop yields the meaningful swings and the cross-boundary traversals |
| `ConsensusPair.TraversalsAreBounded` | geometry/consensus_pair.py:245-271 | After any number of events, traversals exceed neither the swings nor the changes of side |
| `ConsensusPair.ReachIsAFraction` | geometry/consensus_pair.py:245-271 | Traversals <= min(swings, alternations - 1), so the reach fraction is in [0, 1] |
| `ConsensusPair.OrderedEndsNeverCross` | geometry/consensus_pair.py:210-243 | Lines ordered at both ends are ordered throughout and do not cross inside |
| `ConsensusPair.ValidPairIsOrdered` | geometry/consensus_pair.py:210-243 | A valid pair has positive width at every candle of its episode |
| `ConsensusPair.CrossingIsNeverTheOnlyReason` | geometry/consensus_pair.py:210-243 | An inside crossing is never reported without an order reason at one end |
| `ConsensusPair.AlternationNeedsBothSides` | geometry/consensus_pair.py:109-118 | The alternating contacts are at most twice either side's contacts plus one |
| `ConsensusPair.BuildPair` | geometry/consensus_pair.py:204-329 | The pass over contacts, counts, balance, shared support and residuals builds the pair with exactly the measured figures |
| `ConsensusPair.MetricsAreConsistent` | geometry/consensus_pair.py:204-329 | For any two boundaries the figures bound each other: traversals within swings and alternations, alternations within both sides' contacts, every fraction in [0, 1], and a shared end exactly when support is shared |
| `ConsensusFigures.FiguresAre` | geometry/consensus_pair.py:245-271 | Counted from the candles and lines: contacts by touched clusters, swings by consecutive contacts between which a close moves away from the first side by both minima, traversals by those that also start near it and come near the other side |
| `ConsensusFigures.FractionsAre` | geometry/consensus_pair.py:221-271 | Balance, reach and coverage are the quotients of those counts, and nothing where there is nothing to divide by |
| `ConsensusFigures.SupportAndFitAre` | geometry/consensus_pair.py:221-290 | Shared support is exactly the candles of the episode that both boundaries cover; residuals, excursions and held bodies are those of the two boundaries |
| `ConsensusFigures.ReasonsAre` | geometry/consensus_pair.py:232-243 | Each reason for an invalid pair by what it reports: sides, order of the lines at either end, no candle supported by both |
| `ConsensusFigures.CrossingIsTheMeeting` | geometry/consensus_pair.py:210-219 | Lines are reported as crossing exactly when they are not parallel and meet in a point of the episode |
| `ConsensusTerminal.SlopeIsTheOpening` | geometry/consensus_selection.py:180-217 | The least-squares slope of the widths is the difference of the boundary slopes |
| `ConsensusTerminal.StepsFollowLines` | geometry/consensus_selection.py:111-129 | Segment means of a converging channel never expand and of an opening one never contract, whatever the tolerance |
| `ConsensusTerminal.RatioImpliesSteps` | geometry/consensus_selection.py:132-139 | The line-step test adds nothing: the window test is the ratio and the realized ranges alone |
| `ConsensusTerminal.ShiftedRatioImpliesRatio` | geometry/consensus_selection.py:180-217 | Passing the ratio test one bar earlier implies passing it on the window itself |
| `ConsensusTerminal.PersistenceIsShiftedRatio` | geometry/consensus_selection.py:180-217 | Persistent compression is exactly the shifted ratio together with contracting realized ranges over both windows |
| `ConsensusTerminal.ExpansionIsTheRatio` | geometry/consensus_selection.py:180-217 | Expansion is exactly the ratio reaching its minimum: its other two conditions follow |
| `ConsensusTerminal.TrendFollowsBoundaries` | geometry/consensus_selection.py:166-217 | Persistent compression implies converging lines and expansion diverging ones |
| `ConsensusTerminal.ValidPairHasPositiveWidth` | geometry/consensus_selection.py:166-180 | A valid pair is never reported as having no positive width |
| `ConsensusFigures.TerminalIs` | geometry/consensus_selection.py:166-217 | The evidence in widths and segments: too short a window, a width that is not positive, or the ratio of the last width to the first, the opening of the lines, persistent compression as the permitted ratio one bar earlier with shrinking segment ranges on both windows, and expansion as the ratio reached |
| `Ranking.SortedIsRanked` | geometry/consensus_selection.py:335-344 | Sorting by a total order lists the same elements, each ahead of those after it |
| `Ranking.RankingIsUnique` | geometry/consensus_selection.py:335-344 | Where the order decides between any two different elements, the elements alone decide the ranking |
| `ConsensusSelection.LeadsIsTotal` | geometry/consensus_selection.py:335-344 | Any two candidates are ordered by evidence, then identity, and both ways only if they have the same identity |
| `ConsensusSelection.LeadsChains` | geometry/consensus_selection.py:335-344 | That order is transitive |
| `ConsensusSelection.Select` | geometry/consensus_selection.py:281-388 | The selection is the report on a ranking of all candidates, which it returns as the trace |
| `ConsensusSelection.SelectionIgnoresOrder` | geometry/consensus_selection.py:281-388 | Candidates arriving in another order give the same ranking and the same selection |
| `ConsensusSelection.SelectedIffSomeAdmissible` | geometry/consensus_selection.py:363-388 | A pair is selected exactly when some candidate passes every gate, and then it passes them all and leads every other |
| `ConsensusSelection.RejectedFor` | geometry/consensus_selection.py:244-265 | Each reason for a rejection exactly when its figure misses its gate |
| `ConsensusSelection.AdmissibleMeans` | geometry/consensus_selection.py:244-265 | A candidate is admissible exactly when its pair is valid, both sides are used, every figure reaches its gate, support is recent and both bodies hold |
| `ConsensusSelection.StrongestIsReported` | geometry/consensus_selection.py:268-344 | Read off the metrics: no admissible candidate has more traversals than the selected pair, nor as many and more alternations, and so on through balance, reach, swings, coverage, support gap, bodies, residuals, excursions and terminal trend to the inlier sets |
| `ConsensusSelection.DecidingFieldDecides` | geometry/consensus_selection.py:363-388 | Everything before the reported deciding field ties, and on it the winner is strictly stronger; past the last one only the identities differ |
| `ConsensusSelection.LooserGatesKeepSelection` | geometry/consensus_selection.py:244-265 | Loosening gates rejects no candidate for a new reason and never loses a selection |
| `ConsensusSelection.SelectEnvelopePair` | geometry/consensus_selection.py:281-388 | From two boundary lists: sorted, paired with one pair kept per identity (the last built), measured, evaluated and ranked; the report is on that ranking |
| `ConsensusSelection.SelectedIffSomePairing` | geometry/consensus_selection.py:281-388 | A pair is selected exactly when some upper and some lower boundary, each the last of its identity, make a candidate that passes every gate |
| `ConsensusSelection.EnvelopeIgnoresOrder` | geometry/consensus_selection.py:281-388 | From boundaries to selection: the ranking and the report are the same for any order of either boundary list, as long as seeds tell those of one identity apart |
| `ConsensusSelection.SharedSpanNeverDecides` | geometry/consensus_selection.py:373-378 | Between two pairs of one selection the shared span is never the deciding component: the coverage ahead of it orders and ties alike |
| `ConsensusSelection.SelectedPairIsAChannel` | geometry/consensus_selection.py:281-388 | Across boundaries, pair, evidence and selection: a selected pair is made of two of the given boundaries, has positive width at every candle, a trend that agrees with its lines, bodies that hold, and figures that meet the gates and bound each other |
| `ConsensusCase.CaseFrameIsValid` | geometry/consensus_selection.py:142-235 | The terminal stage is handed the whole pair, metrics included, and its evidence is the same for any two pairs with the same lines and episode |
| `ConsensusMemo.ServedIsExact` | geometry/consensus_calibration.py:291-297 | With such a stage, evidence stored by one pair is exact for every pair of the same boundaries, whatever pair parameters built them |
| `ConsensusCase.MetricsReaderIsServedStale` | geometry/consensus_calibration.py:291-297 | Without that condition the memo is wrong: on a concrete case whose terminal stage reads the metrics, two parameter sets that differ in one pair parameter are served the same evidence |
| `ConsensusCase.CaseIsTheSelection` | geometry/consensus_calibration.py:336-348 | The uncached outcome of a case is the envelope selection over its two boundary sets, listed in any order |
| `ConsensusCase.OutcomeIsTheSelection` | geometry/consensus_calibration.py:336-348 | Any outcome the memo may return for a case is that selection, and a selected pair in it is a channel |
| `ConsensusMemo.SidesAreUnique` | geometry/consensus_calibration.py:258-272 | The uncached boundaries of a key are determined by the frame and the key |
| `ConsensusMemo.DirectIsUnique` | geometry/consensus_calibration.py:336-348 | The uncached outcome is determined by the frame and the parameter set |
| `ConsensusMemo.PairsBelong` | geometry/consensus_calibration.py:291-308 | A pair's identity determines both its boundaries |
| `ConsensusMemo.TouchKeepsSlots` | geometry/consensus_calibration.py:274-289 | Touching a slot keeps the table exact and within its limit; with room for one slot the touched one is still there, with none it is gone |
| `ConsensusMemo.ExactMemo.BoundariesFor` | geometry/consensus_calibration.py:258-272 | Returns the uncached boundaries, adds at most that entry and leaves pairs and terminals alone |
| `ConsensusMemo.ExactMemo.Pairs` | geometry/consensus_calibration.py:274-289 | Returns the uncached pairs for the very boundary objects handed out last, an error for any others, and leaves the least-recently-used order as specified |
| `ConsensusRecency.MostRecentAreHeld` | geometry/consensus_calibration.py:274-289 | With room for at least one pair set, the memo holds exactly the sets used most recently, the oldest first, after any sequence of uses |
| `ConsensusMemo.ExactMemo.Examine` | geometry/consensus_calibration.py:291-308 | Over all pairs of a case, whatever is stored already, the evidence served is each pair's own |
| `ConsensusMemo.ExactMemo.CaseOutcome` | geometry/consensus_calibration.py:336-348 | A memoized case is the uncached one, whatever the memo held before; without slots it fails |
| `ConsensusMemo.ExactMemo.CaseOutcomes` | geometry/consensus_calibration.py:336-348 | For every sequence of parameter sets, with any evictions, every memoized outcome equals the direct one |
| `OutcomeMatrix.Compact` | geometry/consensus_calibration.py:801-814 | The table has no duplicates and no unused entry, and every label's index points at its outcome |
| `OutcomeMatrix.ExpandInvertsCompact` | geometry/consensus_calibration.py:817-821 | Expanding the compact form gives back exactly the labelled outcomes |
| `OutcomeMatrix.NoSmallerTable` | geometry/consensus_calibration.py:801-814 | No lossless table stores fewer outcomes |

## Left out

- Telegram, Bybit, SQLite, files, threads and clocks: senders are booleans or sets of failing posts, loaded rows and times are parameters.
- Parsing guards, JSON round trips and SHA-256 identifiers: well-formedness is in the datatypes or a precondition.
- IEEE and Decimal-context rounding: all prices are exact reals; the tick and minute roundings are modelled.
- Average true range of the consensus and L-shape frames and pivot discovery: given values, positive or missing per index.
- `first_min_bars` below 2: the WATCH search then takes extremes of an empty slice; `ValidParameters` asks for at least 2 (the default is 4).
- WatchStream.Stream.Process: asks that a frame which continues a cursor repeats all the rows it was built from; the source compares only the newest stored row, so history rewritten further back is not modelled.
- WATCH cursors of several processes, and the scanner loop that calls them.
- `build_box_translated_stop_plan`, `prepare_box_stop_terms` and the L-shape protection plan: the first depends on a translation function that is not part of this model, the others are guards.
- FlatClosure.ProveFlatClosure: asks for positive execution quantities, as the durable rows guarantee.
- IkigaiBox.QualifiedImpulseAndBox: its own contract is the part later members rely on; the whole acceptance condition is IkigaiBox.AcceptedIffPasses.
- ConsensusBoundary.BuildBoundaries: the table before the final sort; the evidence tuple and the reported order are ConsensusOrder.BuildBoundaryConsensus.
- ConsensusPair.BuildPair: the widths at the episode's ends with their ratios, the intersection index and the first and last two-sided interaction, which no decision reads, are not part of the modelled record.
- Damaged or reinitialized lifecycle-post state files, and two processes sharing one.
- Whether candle bodies respect a boundary: a given function of the line and its support interval (`bodyHolds`).
- Terminal evidence fields that no decision reads (series, minima, maxima, last-bar narrowing).
- The calibration sweep, its gates and readiness counts.
- The validation of stored lifecycle state and its snapshot: one comparison per field.
- Scoring, labels, legacy wedge files, reports and chart rendering: threshold tables and I/O.
