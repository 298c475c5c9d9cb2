# A model of browser leasing and of the VNC client

This project models two parts of a server that hands out remote browsers, and proves what they promise.

**Leasing browsers (Go).** A request for a browser first reserves a slot with a counting semaphore that has a bounded
queue (`LimitQuota`), then checks a browser out of a pool (`PoolProtocol`, `IdlePool`), and files the session in a store
(`SessionStorage`); whoever takes the session out of the store closes the browser, which releases the slot and checks
the browser in or throws it away. All of it runs concurrently, in short critical sections with gaps between them.
`LeaseProtocol` and `PoolProtocol` are step systems whose steps are the critical sections and the actions between them;
the end of a context, a timer, and the outcome of a backend call are choices of the environment. `Leasing` puts the one
on top of the other. The objects themselves (`LimitQuotaAuthorizer`, `LocalSessionStorage`, `IdleBrowserPool`) are
classes whose methods change their fields in place; `PoolRefinement` shows that the pool object takes the steps of
`PoolProtocol`, and `PoolBound` that the bound on idle browsers is reached.

**The VNC byte pipeline (JavaScript).** Bytes arrive in messages of any size in a receive queue (`Websock`).
Framebuffer updates are read from it by parsers that may stop anywhere (`Rfb`, `Rre`, `Hextile`, `Tight`) and may be held
up while the display is busy. Each decoder is a function from its state and the unread bytes to a new state, the bytes
left, the display calls made and a verdict (`Decoding.Outcome`); the classes are proved to compute these functions on
shared, changing objects. `Streaming` proves for any such machine that cutting the bytes and holding it up do not matter;
`RfbUpdate` proves that encoded updates are drawn as the standard means them. Independent definitions of the encodings
and of the pictures they mean are in `HextileEncoding`, `TightEncoding`, `Rre` and `RfbUpdate`. Drawing ends on two
canvases with a damaged box and a render queue (`Screen`, `RenderQueue`, `Display`). `Handover` and `Schedules` say which
calls come through that queue as they were made, `Drawing` which updates have only such calls, and `Viewing` lets the
client and the display run together, from bytes to pixels. `ViewingExactly`, with `Growing`, says for which updates such
runs draw what the calls ask for, and `LateRuns` gives runs that do not. `Des` and `Base64` are the two bit-level
transforms.

## Where the code does something else than one might expect

- Check-ins that overlap can leave more than `maxIdle` browsers idle: with at most k of them in the gap between check and
  push, `maxIdle - 1 + k` is the bound (`PoolProtocol.ReachableIdleBound`), it is reached (`PoolBound.BoundIsReached`), and
  `maxIdle` itself is one exactly when check-ins do not overlap (`PoolBound.MaxIdleBoundsExactly`).
- An RRE count from 2^31 on is read as a negative number (`Rre.LargeCountsAreLost`).
- A blank Hextile tile straight after a raw one is not drawn (`HextileEncoding.BlankIsFilledExactly`).
- A Hextile sub-rectangle that is too wide for its tile runs into the next row of pixels, unless it has no row below it in
  the tile, or starts at the left edge and covers all rows below (`Pictures.OverhangMayStay`), or starts behind the last
  pixel; one that only sticks out at the bottom is drawn correctly (`Pictures.PaintsPictureExactly`).
- The Tight decoder waits for three bytes before it reads a length, so data shorter than that with nothing behind them are
  never shown (`TightEncoding.ShortDataWaits`).
- A Tight palette for a rectangle without pixels stays (`TightEncoding.EmptyPaletteStays`), and the next rectangle with a
  palette does not read its own: the bytes of that are taken for pixels (`TightEncoding.StaleCountSkipsPalette`).
- An update without rectangles that is held up by the display is neither flipped nor answered with a request for the next
  (`Rfb.HeldEmptyUpdateIsLost`); all other updates are unaffected.
- A blit that has to wait in the render queue is queued from the start of its buffer, not from its offset
  (`RenderQueue.OffsetIsForgotten`), and a fill that has to wait keeps a view of its colour: RRE colours are views of the
  receive buffer, which the next message overwrites (`RenderQueue.ViewIsStale`, `Websock.ViewIsOverwritten`). So an RRE
  rectangle or a raw Hextile tile that comes after an image in the same update may be drawn wrong, and nothing else may
  (`ViewingExactly.ExactlyInRuns`): `LateRuns.LateRawRun` and `LateRuns.LateRreRun` are runs, bytes included, in which
  they are.
- An image that turns out to have the wrong size stops the render queue for good (`RenderQueue.StuckForever`), and a client
  that waits for the display then waits for good (`LateRuns.HeldRun` gets there, `Viewing.HeldForever`); the queue drains
  exactly if every image comes in its announced size (`RenderQueue.DrainsExactly`).
- Base64 counts illegal characters when it allocates the result, and skips them when it fills it (`Base64.IllegalCounts`), line
  breaks among them (`Base64.LineBreaksCount`); `Base64.AllocatedExactly` says when the length is right nonetheless.

## Conventions

- JavaScript errors and Go errors are verdicts or results; after a failure a method of a decoder or of the client
  promises its verdict and the calls made before it, as the connection is closed then.
- Encodings and messages other than those named are outside the model: the client stops at them as at an error.
- Using a Hextile colour that was never given counts as the error it raises in the display.
- In `Rfb` and `RfbUpdate` the display's `pending()` is a choice of the environment: after how many update headers it is
  found busy. In `Viewing` it is what the display says.
- A message that is not empty may give any queued view of the receive buffer any colour. What stands before the data of
  a raw tile in the receive buffer is arbitrary, but ends with the byte that announces the tile, which is odd and at most
  30. In `LateRuns` both are the bytes that were sent.

## Model

| member | source | states |
|---|---|---|
| `LimitQuota.DoKeepsInv` | pkg/quota/limit/authorizer.go:48-109 | Every critical section of `Reserve` and `Release` keeps the semaphore invariant: `0 <= allocated <= limit`, queue no longer than `qLimit`, a non-empty queue only when all slots are taken, and no request both queued and granted. |
| `LimitQuota.ReachableWithinLimits` | pkg/quota/limit/authorizer.go:48-109 | For all limits of at least 0 and every run of critical sections of any callers, the counter and the queue stay within their limits. |
| `LimitQuota.AdmissionIsExact` | pkg/quota/limit/authorizer.go:50-67 | A request is refused if and only if all slots are taken and the queue is full, and granted at once if and only if a slot is free, which never happens while someone waits. |
| `LimitQuota.ServedInOrder` | pkg/quota/limit/authorizer.go:65-99 | First come, first served: of two queued requests the later is granted only after the earlier, unless the earlier gives up. |
| `LimitQuota.BoundedWaiting` | pkg/quota/limit/authorizer.go:90-99 | With p requests ahead, a queued request is granted within p + 1 calls of `Release` unless it gives up, whatever else is called in between. |
| `LimitQuota.NoOvertaking` | pkg/quota/limit/authorizer.go:50-67 | No newcomer is granted a slot while a request that does not give up waits. |
| `LimitQuota.GoneStaysGone` | pkg/quota/limit/authorizer.go:70-84 | A request that left the queue without a slot never gets one later. |
| `LimitQuota.LimitQuotaAuthorizer.Enter` | pkg/quota/limit/authorizer.go:48-67 | The first section of `Reserve` on the object: the decision is the exact one, and the new state is that of the value function, with a fresh channel for a queued request. |
| `LimitQuota.LimitQuotaAuthorizer.Expire` | pkg/quota/limit/authorizer.go:70-84 | The section after the context ended: nil exactly when the channel was closed meanwhile; otherwise the request is in no queue and was granted nothing. |
| `LimitQuota.LimitQuotaAuthorizer.Release` | pkg/quota/limit/authorizer.go:90-109 | `Release` closes the channel of the first waiter, or lowers the counter, never below 0. |
| `SessionStorage.LocalSessionStorage.Add` | internal/services/session/storage.go:37-50 | `Add` fails exactly after `Shutdown`; otherwise the nested maps, read as one map, gain exactly this entry. |
| `SessionStorage.LocalSessionStorage.Get` | internal/services/session/storage.go:52-63 | `Get` finds exactly the stored session of a protocol and an id. |
| `SessionStorage.LocalSessionStorage.List` | internal/services/session/storage.go:65-79 | `List` returns every stored session of the protocol, once for each id. |
| `SessionStorage.LocalSessionStorage.Delete` | internal/services/session/storage.go:81-96 | `Delete` returns true exactly for the caller that took the session out. |
| `SessionStorage.LocalSessionStorage.Shutdown` | internal/services/session/storage.go:104-135 | `Shutdown` empties the store for good and hands every stored session to exactly one closer. |
| `LeaseProtocol.StepKeepsInv` | internal/services/wdsession/service.go:80-145 | Every step of every CreateSession, DeleteSession, shutdown closer, `Allocate` and `Close` keeps the invariants on queue, owners, names, counter and logs. |
| `LeaseProtocol.LeaseConservation` | internal/browser/limited/manager.go:36-54 | In every reachable state of the interleaved system the authorizer's counter equals granted waiters that have not resumed, plus allocations in progress, plus LimitedBrowsers not yet released; it lies between 0 and the limit. |
| `LeaseProtocol.OneOwner` | internal/services/wdsession/service.go:80-145 | Every LimitedBrowser ever made is in exactly one place: with one running task that will close it, in the store under one id, or closed; each is released and closed at most once, and released before it is closed. |
| `LeaseProtocol.CancellationRace` | pkg/quota/limit/authorizer.go:69-87 | A waiter whose channel `Release` closed goes on with a slot in every interleaving with the end of its context; a request that ended in an error is neither queued nor granted. |
| `LeaseProtocol.ErrorsAreFinal` | pkg/quota/limit/authorizer.go:77-84 | A request that was refused or gave up never receives a slot in any continuation. |
| `LeaseProtocol.NothingLeaks` | internal/browser/limited/browser.go:37-40 | Once all calls have ended and no session is stored, no slot is taken, nobody is queued and every LimitedBrowser is closed. |
| `LeaseProtocol.NoUnderrun` | pkg/quota/limit/authorizer.go:101-103 | The underrun branch of `Release` is unreachable: every caller finds a waiter or a taken slot. |
| `LeaseProtocol.ShutdownEmptiesForGood` | internal/services/session/storage.go:40-42 | After the store's `Shutdown` no session is ever stored, and a CreateSession that comes to `Add` too late closes its browser itself. |
| `LeaseProtocol.ConservedByRelease` | pkg/quota/limit/authorizer.go:90-109 | Handing a slot to a waiter, or lowering the counter, keeps the conservation law. |
| `LeaseProtocol.ConservedByShutdown` | internal/services/session/storage.go:104-122 | Turning every stored session into a closer keeps the conservation law. |
| `PoolProtocol.StepKeepsInv` | internal/browser/pool/pool.go:48-167 | Every step of check-outs, check-ins, timer callbacks and shutdown keeps: each browser in one place, none lost, one timer at most for each browser and none for a browser in use, every idle browser watched. |
| `PoolProtocol.ExactlyOnePlace` | internal/browser/pool/pool.go:107-167 | In every reachable state a browser is held by exactly one task, or idle, or closed exactly once; so it is never leased twice, nor closed by the pool while leased, even when a stale callback runs after a check-out and a check-in. |
| `PoolProtocol.IdleIsNotForgotten` | internal/browser/pool/pool.go:140-155 | Every idle browser has its own armed timer, due by check-in time plus idle timeout and by creation time plus maximal age, or a callback that is about to run. |
| `PoolProtocol.ReachableIdleBound` | internal/browser/pool/pool.go:122-138 | With at most k >= 1 check-ins ever between their check and their push, the idle map never holds more than `maxIdle - 1 + k` browsers. |
| `PoolBound.BoundIsReached` | internal/browser/pool/pool.go:122-138 | For every `maxIdle >= 1`, every k >= 1 and every maximal age of at least 0 there is a run with at most k check-ins ever between their check and their push that ends with exactly `maxIdle - 1 + k` idle browsers. |
| `PoolBound.MaxIdleBoundsExactly` | internal/browser/pool/pool.go:122-138 | `maxIdle` bounds the number of idle browsers in every run with at most k check-ins in that gap if and only if k <= 1, or the maximal age is negative and no browser is ever kept. |
| `PoolProtocol.NoneHandedOutAfterShutdown` | internal/browser/pool/pool.go:110-112 | After `Shutdown` a browser that is idle, being closed or closed never reaches a client again. |
| `PoolProtocol.LateCheckinCloses` | internal/browser/pool/pool.go:123-128 | A browser that is still leased when the pool shuts down never becomes idle again: its check-in closes it. |
| `PoolProtocol.ShutdownIsFinal` | internal/browser/pool/pool.go:48-51 | `Shutdown` is never undone. |
| `IdlePool.IdleBrowserPool.PopIdle` | internal/browser/pool/pool.go:107-120 | `popIdle` takes one idle browser out, stops its timer and leaves every other entry and timer as it was; it fails exactly after shutdown. |
| `IdlePool.IdleBrowserPool.PoolState` | internal/browser/pool/pool.go:101-105 | `PoolState` counts the idle browsers. |
| `IdlePool.IdleBrowserPool.DecideCheckin` | internal/browser/pool/pool.go:122-135 | A check-in closes the browser exactly after shutdown, when the pool is full, or when the browser is too old. |
| `IdlePool.IdleBrowserPool.PushIdle` | internal/browser/pool/pool.go:140-155 | `pushIdle` files the browser with a timer due at the earlier of idle timeout and maximal age. |
| `IdlePool.IdleBrowserPool.EvictIdle` | internal/browser/pool/pool.go:157-167 | The callback closes the browser exactly when it is in the map, and takes it out. |
| `IdlePool.IdleBrowserPool.Shutdown` | internal/browser/pool/pool.go:48-64 | `Shutdown` empties the map, stops every timer and hands every idle browser to one closer. |
| `PoolRefinement.GuardsAreRedundant` | internal/browser/pool/pool.go:107-155 | Given the invariant, a step is enabled exactly when the checks of the source let it happen: what the step system asks for in addition, a creation time or a timer, is always there. |
| `PoolRefinement.Pop` | internal/browser/pool/pool.go:107-120 | `popIdle` on an object that shows a state of the step system takes one of its three steps: after it the object shows the state after that step. |
| `PoolRefinement.Decide` | internal/browser/pool/pool.go:122-138 | So do the two checks of a check-in, with the same verdict. |
| `PoolRefinement.Push` | internal/browser/pool/pool.go:140-155 | So does `pushIdle`, timer included. |
| `PoolRefinement.Evict` | internal/browser/pool/pool.go:157-167 | So does the callback of a timer. |
| `PoolRefinement.ShutDown` | internal/browser/pool/pool.go:48-64 | So does `Shutdown`, the browsers it hands to closers being those of the step. |
| `Leasing.MoveKeepsInv` | internal/browser/pool/browser.go:46-52 | Leases over the pool: every step of either layer, and every step in which one calls the other, keeps both invariants and the link that the pool leases a browser exactly for each LimitedBrowser that is not closed. |
| `Leasing.SessionsDoNotShare` | internal/services/wdsession/service.go:107-135 | In every reachable state two stored sessions have two different browsers, each leased to that session, neither idle nor closed. |
| `Leasing.NoLeaseIsLost` | internal/browser/pool/pool.go:79-99 | A browser the pool counts as leased belongs to an allocation in progress, a stored session or a task that will close it. |
| `Leasing.CloseFindsItsBrowser` | internal/browser/limited/browser.go:37-40 | Whoever comes to close a LimitedBrowser finds the pool's lease of its browser still open, so the close takes effect. |
| `Websock.Websock.DecodeMessage` | html/static/js/core/websock.js:330-337 | Appending concatenates to the unread bytes, through compaction and growth, and throws exactly when unread and new bytes together exceed 40 MiB. |
| `Websock.Websock.ExpandCompact` | html/static/js/core/websock.js:297-327 | Compaction in place and growth keep the unread bytes, make the room asked for and keep the capacity within 40 MiB; it throws exactly when that is impossible. |
| `Websock.Websock.Shift` | html/static/js/core/websock.js:139-145 | Shifting takes the bytes from the front, highest first. |
| `Websock.Websock.Shift32` | html/static/js/core/websock.js:134-136 | A four-byte number is big-endian two's complement. |
| `Websock.Websock.ShiftBytes` | html/static/js/core/websock.js:158-162 | A shift of bytes returns a view of the buffer at the read position, which shows the front of the queue, and removes it from the queue. |
| `Websock.ViewIsOverwritten` | html/static/js/core/websock.js:330-353 | Once the queue is read to its end, the next message is written over the buffer from its start: a view from before shows the bytes of that message. |
| `Websock.Websock.RQwait` | html/static/js/core/websock.js:178-189 | `rQwait` asks for more exactly when there are too few bytes, and hands the last bytes read back; it throws exactly when there are too few to hand back. |
| `Websock.ShiftedIsBigEndian` | html/static/js/core/websock.js:139-145 | The sum of shifted bytes is the big-endian number, signed for four bytes. |
| `Rre.DecodeResumes` | html/static/js/core/decoders/rre.js:15-43 | However the bytes are cut, re-entering the RRE decoder makes the calls, takes the bytes and ends in the state of one call on all bytes. |
| `Rre.DecodesEncodingExactly` | html/static/js/core/decoders/rre.js:15-43 | The decoder draws the background and the sub-rectangles of the encoding of section 7.7.3 of RFC 6143, in order, reads no further and is ready for the next rectangle, if and only if there are fewer than 2^31 sub-rectangles. |
| `Rre.LargeCountsAreLost` | html/static/js/core/decoders/rre.js:21-27 | From 2^31 sub-rectangles on the count is read as negative: only the background is drawn, and the next RRE rectangle is taken for complete without being read. |
| `Rre.RREDecoder.DecodeRect` | html/static/js/core/decoders/rre.js:15-43 | The object does what the decoding function says, for its field, the receive queue and the calls. |
| `Tiling.TilesPartition` | html/static/js/core/decoders/hextile.js:20-26 | Every pixel of a rectangle is in exactly one tile: the tiles are disjoint and cover it. |
| `Tiling.TilesInOrder` | html/static/js/core/decoders/hextile.js:43-49 | The tiles come row by row, each row from left to right. |
| `Tiling.Tile` | html/static/js/core/decoders/hextile.js:43-49 | A tile lies within its rectangle and is at most 16 by 16 pixels. |
| `Pictures.PaintsPicture` | html/static/js/core/decoders/hextile.js:145-183 | Overpainting the background by linear index gives each pixel the colour of the last sub-rectangle over it, for any sub-rectangles whose rows stay on the pixels of the tile they cover: not wider than what is left of the tile, or without a row below, or covering all rows below from the left edge on, or behind the last pixel. |
| `Pictures.PaintsPictureExactly` | html/static/js/core/decoders/hextile.js:164-183 | One non-empty sub-rectangle of another colour than the background, at any place and of any size, is painted as its picture if and only if it is of that kind. |
| `Pictures.OverhangMayStay` | html/static/js/core/decoders/hextile.js:164-183 | Too wide is not enough for that: a sub-rectangle three by two at the left edge of a two by two tile covers all that follows and is painted as its picture. |
| `Pictures.OverhangWraps` | html/static/js/core/decoders/hextile.js:164-183 | A sub-rectangle that does not stay, two pixels wide over the last pixel of the first row of a two by two tile, is not painted as its picture. |
| `Hextile.TileResumes` | html/static/js/core/decoders/hextile.js:28-79 | A tile is taken whole or not at all, and what follows it does not matter. |
| `Hextile.DecodeResumes` | html/static/js/core/decoders/hextile.js:19-142 | However the bytes are cut, re-entering the Hextile decoder makes the calls, takes the bytes and ends in the state of one call on all bytes. |
| `HextileEncoding.TileDecodes` | html/static/js/core/decoders/hextile.js:39-139 | A tile in the encoding of section 7.7.4 of RFC 6143, of whatever kind, is drawn as the picture it means, with the colours carried over from earlier tiles. |
| `HextileEncoding.BlankIsFilledExactly` | html/static/js/core/decoders/hextile.js:83-89 | A blank tile is filled with the background if and only if the tile before it was not raw; after a raw one it is taken and not drawn. |
| `HextileEncoding.DecodesEncoding` | html/static/js/core/decoders/hextile.js:19-142 | The decoder draws every encoded rectangle pixel by pixel as the standard describes it, reads no further, and remembers the colours, from any state left by rectangles before. |
| `Hextile.HextileDecoder.StartTile` | html/static/js/core/decoders/hextile.js:145-162 | The tile's buffer holds the background in every pixel of the tile. |
| `Hextile.HextileDecoder.SubTile` | html/static/js/core/decoders/hextile.js:165-183 | The loops over the buffer overpaint the picture by one sub-rectangle; writes beyond the buffer are dropped. |
| `Hextile.HextileDecoder.FinishTile` | html/static/js/core/decoders/hextile.js:186-190 | The blit shows the picture in the buffer, from the start of the buffer. |
| `Hextile.HextileDecoder.RawTile` | html/static/js/core/decoders/hextile.js:90-97 | A raw tile is blitted out of the receive buffer, from behind its start, with every pixel opaque, and the bytes behind it in the receive queue are untouched. |
| `Hextile.HextileDecoder.DecodeTile` | html/static/js/core/decoders/hextile.js:81-138 | One tile on the object: calls, colours, counters and queue as the decoding function says. |
| `Hextile.HextileDecoder.DecodeRect` | html/static/js/core/decoders/hextile.js:19-142 | The whole loop on the object, with its re-entry state. |
| `Tight.DecodeResumes` | html/static/js/core/decoders/tight.js:28-72 | However the bytes are cut, re-entering the Tight decoder gives what one call on all bytes gives: stream resets, filter byte, palette and length are each taken once, and every zlib stream, an arbitrary function of its history, is used the same way. |
| `Tight.PaletteResumes` | html/static/js/core/decoders/tight.js:185-241 | The same for the palette filter, which may stop before and after the palette. |
| `Tight.ReadDataResumes` | html/static/js/core/decoders/tight.js:295-323 | The same for length-prefixed data. |
| `TightEncoding.LengthDecodes` | html/static/js/core/decoders/tight.js:295-313 | The 7/7/8-bit length decoder inverts the shortest encoding of every n below 2^22, whatever follows. |
| `TightEncoding.DecodesEncoding` | html/static/js/core/decoders/tight.js:28-241 | Every rectangle as a server sends it, filled, JPEG, copied or with a palette of 2 to 256 colours, short or compressed, is drawn as it means for any zlib and whatever palette came before; the decoder takes its bytes and no more and is idle again, the streams having been used once each way. |
| `TightEncoding.ShortDataWaits` | html/static/js/core/decoders/tight.js:296-299 | The one exception: with data and length of fewer than three bytes and nothing behind them, the decoder waits. |
| `TightEncoding.DoneIsIdle` | html/static/js/core/decoders/tight.js:67-69 | After any finished rectangle nothing but the streams carries state; the number of colours stays only after a palette for a rectangle without pixels. |
| `TightEncoding.EmptyPaletteStays` | html/static/js/core/decoders/tight.js:185-212 | A palette rectangle without pixels is read with its palette, draws nothing, and leaves the number of colours and the colours behind. |
| `TightEncoding.StaleCountSkipsPalette` | html/static/js/core/decoders/tight.js:185-238 | After that the next rectangle with a palette does not read its own: the bytes of its palette, the number of its colours first, are taken for the beginning of its pixel data, compressed or not, and what is drawn has the colours that stayed. |
| `TightEncoding.ColoursArePicture` | html/static/js/core/decoders/tight.js:231-238 | The picture of a palette rectangle depends on its own palette only. |
| `TightPixels.MonoPixels` | html/static/js/core/decoders/tight.js:243-274 | The nested loops write every pixel once, in row-major order, with the palette entry given by bit 7 - (x mod 8) of byte y * ceil(width / 8) + x / 8; row padding is ignored. |
| `TightPixels.RowInMono` | html/static/js/core/decoders/tight.js:250-271 | Each row of the picture is the bits of its own bytes, most significant first. |
| `TightPixels.IndexedPixels` | html/static/js/core/decoders/tight.js:276-289 | One palette entry for each index, in order. |
| `TightPixels.CopiedPixels` | html/static/js/core/decoders/tight.js:172-178 | Three bytes a pixel become four, opaque. |
| `TightDecoding.TightDecoder.ReadControl` | html/static/js/core/decoders/tight.js:34-45 | The control byte resets exactly the streams of its low four bits. |
| `TightDecoding.TightDecoder.ReadData` | html/static/js/core/decoders/tight.js:295-323 | `_readData` on the object. |
| `TightDecoding.TightDecoder.PaletteFilter` | html/static/js/core/decoders/tight.js:185-241 | `_paletteFilter` on the object, with its buffers. |
| `TightDecoding.TightDecoder.DecodeRect` | html/static/js/core/decoders/tight.js:28-72 | `decodeRect` on the object: verdict, calls, fields, palette and queue as the decoding function says. |
| `Rfb.StepResumes` | html/static/js/core/rfb.js:2146-2186 | Every step of reading an update, and each of its decoders, can be completed later when it lacks bytes, and otherwise does not see the bytes behind it. |
| `Rfb.UpdatesIsValid` | html/static/js/core/rfb.js:2146-2186 | The client is a machine in the sense of `Streaming`: its steps resume and terminate. |
| `Streaming.BatchResumes` | html/static/js/core/rfb.js:849-876 | Processing in two batches is processing in one. |
| `Streaming.RunThenBatch` | html/static/js/core/rfb.js:2152-2158 | Going on after being held up by the display differs from not being held up only in calls that were due at the header. |
| `Streaming.ChunkingDoesNotMatter` | html/static/js/core/rfb.js:849-876 | However the bytes are cut into messages and however often the display holds up processing, the client reaches the state of one batch, with the same bytes unread and the same failure; it has made the same calls if and only if none were lost at a header. |
| `Streaming.NoLosses` | html/static/js/core/rfb.js:2138-2158 | No calls are lost when no header that can be held up has calls due. |
| `Rfb.OnlyEmptyUpdatesAreLost` | html/static/js/core/rfb.js:2147-2159 | A header has calls due if and only if its update has no rectangles. |
| `Rfb.HeldEmptyUpdateIsLost` | html/static/js/core/rfb.js:2138-2159 | An update without rectangles that is held up is neither flipped nor answered with a request. |
| `RfbUpdate.DataDecodes` | html/static/js/core/rfb.js:2466-2483 | The data of each kind of rectangle lead to its drawing calls and leave the client at the next rectangle. |
| `RfbUpdate.UpdateLeads` | html/static/js/core/rfb.js:2146-2191 | A whole update, ended by its count or by a last-rectangle marker, is drawn rectangle by rectangle and then flipped. |
| `RfbUpdate.EveryUpdateIsDrawn` | html/static/js/core/rfb.js:2138-2186 | End to end: for any sequence of non-empty updates of copy, RRE, Hextile and Tight rectangles, of which only the very last must not be one that waits for further bytes, cut into messages in any way and held up after any headers, a client that is not held up has made exactly the calls the updates mean, in order, and has nothing unread. |
| `RfbClient.RFB.HandleRectangle` | html/static/js/core/rfb.js:2188-2217 | `_handleRect` on the objects: the decoder for the encoding, on the shared receive queue and display. |
| `RfbClient.RFB.HandleMessage` | html/static/js/core/rfb.js:849-876 | The loops of `_handleMessage`, `_normalMsg` and `_framebufferUpdate` on the objects do one run of the machine. |
| `RfbClient.UpdatesRuns` | html/static/js/core/rfb.js:2146-2186 | The objects run the machine of which the results on chunking speak. |
| `RfbClient.RFB.RecvMessage` | html/static/js/core/websock.js:339-353 | A message from the socket takes the objects from one state of the connection to the next, and fails exactly when the queue is full. |
| `RfbClient.RFB.OnFlush` | html/static/js/core/rfb.js:2138-2144 | The display's flush report resumes processing. |
| `Screen.FlipShowsAll` | html/static/js/core/display.js:245-289 | After an executed flip the target shows the whole viewport, given that it did outside the damaged box. |
| `Screen.DrawAgrees` | html/static/js/core/display.js:303-318 | Drawing keeps the agreement outside the damaged box. |
| `Screen.CopyAgrees` | html/static/js/core/display.js:320-349 | So does copying within the backbuffer. |
| `Screen.ResizedAgrees` | html/static/js/core/display.js:193-218 | So does a resize that leaves the viewport inside. |
| `Screen.DeltaFits` | html/static/js/core/display.js:96-123 | The clamped movement puts the viewport inside the framebuffer, wherever it was. |
| `RenderQueue.HandleKeeps` | html/static/js/core/display.js:96-394 | Every draw, move, resize, flush and image event, and every write to the receive buffer, keeps agreement, the viewport inside the framebuffer, the queue waiting for its first image only, and the log but for the bytes of views and waiting blits, which change exactly in the cases named. |
| `RenderQueue.DamageIsEnough` | html/static/js/core/display.js:193-289 | After any events, every viewport pixel outside the damaged box equals the backbuffer pixel under it, the viewport lies in the framebuffer, and an executed flip leaves what a full copy would. |
| `RenderQueue.CallsInOrderExactly` | html/static/js/core/display.js:451-512 | The calls executed, followed by those queued, are those made, in order, in whatever order images load, but for the bytes of blits and of fills with a view; these too are those of the calls throughout a run if and only if every blit that had to wait has the bytes of the start of its buffer at its offset, and the receive buffer is never written over the colour of a fill that waits. |
| `RenderQueue.OffsetIsForgotten` | html/static/js/core/display.js:370-384 | A blit from offset 4 of a buffer that has to wait is queued with the four bytes at the start of the buffer, and they are drawn once the image before it is loaded. |
| `RenderQueue.ViewIsStale` | html/static/js/core/display.js:303-318 | A fill with a view of the receive buffer that has to wait is drawn in the colour that the buffer holds when its turn comes, not in that of the call. |
| `RenderQueue.DrainsExactly` | html/static/js/core/display.js:467-512 | Nothing is queued and no flush request is open if and only if every image that was to be drawn has been loaded with the size announced for it. |
| `RenderQueue.StuckForever` | html/static/js/core/display.js:487-494 | With an image at the head of the queue that came in another size, or as no image, nothing more is executed whatever happens, and an open flush request is never answered. |
| `RenderQueue.WrongSizeSticks` | html/static/js/core/display.js:487-494 | Two such runs: an image announced with one pixel that comes with two, and one that is no image. |
| `RenderQueue.QueueIsTransparent` | html/static/js/core/display.js:451-512 | Once the images are loaded with their sizes both canvases are what executing the calls one after the other makes of them, in runs in which the viewport and the framebuffer stay as they are and no waiting blit or fill changes its bytes. |
| `Handover.BlitIsHonest` | html/static/js/core/display.js:370-384 | A blit from the start of its buffer, as the Hextile tile buffer and the Tight decoder make it, is executed with its own bytes whether it waits or not. |
| `Schedules.ExactlySafe` | html/static/js/core/display.js:303-394 | For any calls of a client that begins an update only while nothing is queued: the display executes them as they were made in every schedule of image loads and of writes to the receive buffer, a byte that announces a raw tile standing before its data, if and only if no update has a fill with a view of the receive buffer, or a blit out of it, after an image. |
| `Drawing.RectDraws` | html/static/js/core/rfb.js:2466-2483 | Whatever the bytes, the decoders ask the display for drawing only, and every blit has exactly four bytes for each pixel. |
| `Drawing.UpdatesSafe` | html/static/js/core/decoders/rre.js:21-37 | The calls for updates are of that kind if and only if in no update an RRE rectangle, or a Hextile rectangle with a raw tile, comes after a JPEG rectangle with pixels. |
| `Viewing.RunDelivers` | html/static/js/core/rfb.js:2138-2158 | The client, its calls going to the display as they are made, begins an update only while nothing is queued, and is held up only while something is. |
| `Viewing.UpdatesReachTheScreen` | html/static/js/core/rfb.js:2138-2186 | From bytes to pixels: updates received in any pieces while images are loaded at any time and the client waits for the display at the headers where it is busy. When all bytes are there and every image has been loaded with its size, the client is not held up, nothing is queued, and both canvases are as drawing the updates call by call leaves them, the viewport showing all of it; for updates that do not end with data that wait for further bytes and in which no RRE rectangle and no raw Hextile tile comes after an image, while the viewport stays where it is. |
| `Viewing.ExactlyInOrder` | html/static/js/core/display.js:303-394 | For the calls of any updates and every schedule of image loads and writes to the receive buffer: the display executes them as they were made if and only if no RRE rectangle and no raw Hextile tile comes after an image in its update. |
| `Viewing.LateGoesWrong` | html/static/js/core/decoders/rre.js:24-37 | For each kind an update for which it fails, valid in any state of the decoders, and a schedule, the bytes before the raw tile ending with the one that announces it, in which the display executes something else. |
| `ViewingExactly.AlwaysAsMade` | html/static/js/core/rfb.js:2138-2186 | At every time of every run of client and display in which no RRE rectangle and no raw Hextile tile comes after an image in its update, whatever has arrived and been loaded: what the display has executed is a prefix of what the calls made so far ask for, and these are a prefix of the calls the updates mean. |
| `ViewingExactly.ExactlyInRuns` | html/static/js/core/rfb.js:2138-2186 | The condition is exact for client and display together: in every run, whatever is sent behind the updates, however the bytes are cut, whatever is loaded and when, the display has at every time executed a prefix of what the client called for, if and only if in none of the updates an RRE rectangle or a raw Hextile tile comes after an image. |
| `ViewingExactly.LateRunGoesWrong` | html/static/js/core/display.js:303-394 | For any updates that do not meet it, in any state of the decoders, a run in which the display executes something else: the updates, one more with a copied rectangle, and the loads of the images. |
| `LateRuns.LateRawRun` | html/static/js/core/decoders/hextile.js:90-97 | One message with an image and a raw tile, then the load of the image: the tile is drawn with the first four bytes of the message, as the receive buffer holds them at its start. |
| `LateRuns.LateRreRun` | html/static/js/core/decoders/rre.js:21-37 | One message with an image and an RRE rectangle, any further message of at least 41 bytes, then the load of the image: the rectangle is filled with the bytes 37 to 40 of the second message, where the first had its colour. |
| `LateRuns.HeldRun` | html/static/js/core/rfb.js:2138-2158 | A run to a client that waits for good: an update with an image, the header of the next update, at which the display is busy, then the image in another size than announced. |
| `Viewing.HeldForever` | html/static/js/core/rfb.js:2138-2158 | A client that waits for the display behind an image of the wrong size waits for good: whatever arrives is left unread and no call is made. |
| `Display.Display.ScanRenderQ` | html/static/js/core/display.js:467-512 | The loop of `_scanRenderQ` on the object. |
| `Display.Display.FlipView` | html/static/js/core/display.js:245-289 | `flip` on the object, queued or executed. |
| `Display.Display.BlitImage` | html/static/js/core/display.js:370-394 | `blitImage` on the object, queued or executed. |
| `Display.Display.ViewportChangePos` | html/static/js/core/display.js:96-136 | `viewportChangePos` on the object. |
| `Display.Display.ViewportChangeSize` | html/static/js/core/display.js:138-177 | `viewportChangeSize` on the object. |
| `Display.Display.Resize` | html/static/js/core/display.js:193-225 | `resize` on the object. |
| `Des.Deciphering` | html/static/js/core/des.js:182-260 | For every list of round keys and arbitrary boxes, encrypting the ciphertext with the round keys in reverse order gives the text back: the deciphering of FIPS 46-3. |
| `Des.DecipheringWithKeys` | html/static/js/core/des.js:182-260 | The same on the key words: an object whose array of 32 words has its pairs reversed deciphers what the other enciphered. |
| `Des.EncryptionIsInjective` | html/static/js/core/des.js:182-260 | Different blocks have different ciphertexts. |
| `Des.PermuteIsStandard` | html/static/js/core/des.js:190-206 | The seven masked exchanges and rotations are the initial permutation of FIPS 46-3, with the halves rotated. |
| `Des.UnpermutePermute` | html/static/js/core/des.js:235-251 | The final permutation undoes the initial one. |
| `Des.RoundsBack` | html/static/js/core/des.js:208-233 | Sixteen rounds with the keys in reverse order, on exchanged halves, undo sixteen rounds. |
| `Des.SpreadPack` | html/static/js/core/des.js:186-258 | Packing eight bytes in two words and spreading them again changes nothing. |
| `Des.DES.Enc8` | html/static/js/core/des.js:182-260 | `enc8`, statement by statement, computes the cipher. |
| `Base64.RoundTrip` | html/static/js/core/base64.js:14-102 | Decoding the encoding of any bytes gives them back and leaves no bits over. |
| `Base64.DecodeEncode` | html/static/js/core/base64.js:59-102 | The codec as a whole: decoding what was encoded raises no error and fills the array it allocated exactly with the bytes. |
| `Base64.LengthIsExact` | html/static/js/core/base64.js:59-65 | The result length computed up front is exact for encoded data. |
| `Base64.CorruptedExactly` | html/static/js/core/base64.js:95-100 | Decoding fails if and only if the number of legal characters is not a multiple of four. |
| `Base64.IllegalIsSkipped` | html/static/js/core/base64.js:74-78 | Characters outside the alphabet change neither the bytes written nor the bits left over, wherever they are. |
| `Base64.BytesWritten` | html/static/js/core/base64.js:84-92 | Every legal character but the first of each four writes a byte, unless it is padding. |
| `Base64.BodyAndLate` | html/static/js/core/base64.js:67-93 | The number of bytes written, for any input: what the legal characters before the padding hold, and what legal characters behind it still write, which is nothing when only padding is legal there. |
| `Base64.LateExactly` | html/static/js/core/base64.js:67-93 | Nothing is written behind the first padding character if and only if every legal character there is padding or the first of its group of four. |
| `Base64.AllocatedExactly` | html/static/js/core/base64.js:60-65 | For any tables, input and offset: the array is allocated in the length of the bytes written if and only if the characters counted for it beyond the legal ones before the padding make room for exactly the bytes written behind the padding; when none are written there, if and only if every character counted is legal and comes before the padding, or exactly one is not and the legal ones are whole groups of four. |
| `Base64.IllegalCounts` | html/static/js/core/base64.js:60-65 | Three encoded bytes with two illegal characters behind them decode to three bytes in an array of length four. |
| `Base64.LineBreaksCount` | html/static/js/core/base64.js:60-65 | With the tables of the source two line breaks are such characters: three bytes encoded, with two line breaks behind them, decode to three bytes in an array of length four. |
| `Base64.StandardTablesAreValid` | html/static/js/core/base64.js:11-56 | The two tables of the source are inverse to each other. |
| `Base64.Encode` | html/static/js/core/base64.js:14-43 | The loop of `encode` computes the encoding. |
| `Base64.Decode` | html/static/js/core/base64.js:59-102 | The loop of `decode` computes the decoding, and fails exactly on left-over bits. |

## Left out

- `ExternalReserve` and the disabled authorizer: not part of this model; the semaphore laws need every slot to come from `Reserve`.
- Session ids that repeat: a fresh id is a condition of the step that names a session, as `Add` would overwrite.
- Panics, logging, metrics, routing, configuration, HTTP, Docker and Kubernetes: outcomes of the environment.
- The pool manager's choice among several pools by a hash of the capabilities: `Leasing` has one pool.
- The backend behind a check-out is one step that returns a fresh browser or an error.
- The cleaner of idle sessions: it only chooses which sessions to delete, and in `LeaseProtocol` any stored session may be deleted at any time.
- The wait loops and health checks of CreateSession: one step that succeeds or fails.
- IdlePool.IdleBrowserPool.PopIdle: any entry may be taken, as Go's map iteration has no order; the timers are values with a state, not run by a clock.
- RfbClient.RFB.HandleMessage: other server messages than framebuffer updates, and the handshake, are outside the model.
- RfbClient.RFB.HandleRectangle: only copy, RRE, Hextile, Tight and the last-rectangle marker; at any other encoding the model fails where the source may decode it.
- The Raw decoder, cursor, desktop-size, desktop-name and key-event pseudo-encodings, TightPNG: not part of this model.
- A DELETE for a session that is not stored: it ends at once with an error and changes nothing; the steps of `LeaseProtocol` begin with a session found.
- ViewingExactly.ExactlyInRuns: the bytes in front of raw tiles and the colours that a message writes over queued views are choices of the environment, within the conventions above; `LateRuns` ties them to the bytes sent in its runs.
- Viewing.UpdatesReachTheScreen: the user does not move or resize the viewport meanwhile; `RenderQueue.DamageIsEnough` covers that for the display alone.
- Websock.Websock.DecodeMessage: the state after its overflow error is described exactly but not used further; the client fails there.
- TightDecoding.TightDecoder.DecodeRect: a zlib stream is the list of what was done to it, not an object; the inflater's buffers and pako are not modelled.
- TightEncoding.DecodesEncoding: palettes of one colour and rectangles without pixels are decoded as the source does (`Tight`) but have no encoding here.
- Hextile.HextileDecoder.DecodeRect: a background or foreground that was never given is an error at once, where the source would queue a fill without a colour while the render queue is not empty.
- RenderQueue.DamageIsEnough: canvas pixels are opaque; a transparent pixel of the backbuffer would not cover an old one of the target.
- Display.Display.ViewportChangePos: movements are whole numbers, as rounding down comes first; scaling, cursors and the style of the canvas are left out.
- Des.DES.Enc8: the contents of the S-box tables and the key schedule are arbitrary here; 16-byte encryption is left out.
- Base64.Decode: characters are taken modulo 128 as in the source, and logging is left out.
