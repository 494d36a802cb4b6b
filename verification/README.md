# Verified models of the VIDIX drivers

VIDIX drives video overlays from user space. Five of its files hold real algorithms on
buffers, lists and fixed-point arithmetic; this project models them and proves what they
guarantee. Hardware and kernel are plain arrays, sequences, fields and parameters.

* `Tiling`, `Ivtv`, `IvtvPlayback` (with `Arith`): the Hauppauge PVR 350 driver rewrites linear
  YV12 planes into a surface of 16x16 blocks. The nested loops of the source are kept as loops
  over an array and are proved to perform one pure address map, a bijection. Selecting a frame
  can be undone, exactly for the sizes named in `TellsFramesApartIff`.
* `MappingList`: the Windows NT helper keeps mapped areas in an array that grows by copying, is
  compacted in place and is drained on unload. The class refines operations on a sequence; a
  log of kernel calls says which resources are alive, and every operation is shown to keep the
  books exactly under a stated condition.
* `DmaList`, `Mach64Dma`, `RadeonDma`: requests are compiled into page descriptors. An engine
  that walks a table is defined on its own, and running a compiled list is one block copy. Over
  whole runs of calls with fixed buffers a kept list is as good as a new one. The
  radeon's table lies in video memory itself; what is proved of it holds for an engine that starts
  at the table and fetches it entry by entry. The driver computes no such start: the address it
  programs, vidix/vidix/drivers/radeon_vid.c:3490-3500, keeps its initial value 0 (line 49).
* `FramePlacement`, `Mach64Layout`, `Mach64Overlay`: the search that places frames in video
  memory, the planes inside a frame, and the agreement of the addresses the application is told
  with those the hardware is given.
* `RadeonScaler`, `RadeonFilter`: the branch cascade over the horizontal ratio is shown to pick
  the best affordable combination of step codes, and its output to select filter taps that the
  registers hold without loss.
* `Mga`: scaling by the Matrox back-end scaler with the window cut off at the screen edges. Row
  numbers, weights and plane origins are programmed separately and recombine exactly.

Where a property does not hold of the code as it stands, the condition under which it does is
proved in both directions, and a second lemma gives an input at which it fails:

* `TellsFramesApartIff`, `OddFramesConfused`: for odd sizes the last chroma byte is never shown.
* `HeldIff`, `WidePictureCollides`: the surface keeps all pixels of a picture up to 720x576, or of at
  most 16 rows and 12961 columns (25920 for one row); the driver checks neither.
* `MapAccounts`, `FailedAppendLeaks`: a mapping request that fails late leaves something behind.
* `UnmapAccounts`, `DuplicateAddressLeaks`: of two areas at one user address one is never released.
* `FaultAccounts`, `FaultLeaks`: so is the rest of an entry after a fault between its release calls.
* `NoListAccounts`, `NoListLeaks`: an unmap without memory for the shorter list leaves a stale entry.
* `TableHoldsIff`, `TableOverrun`: more than 64 frames overrun the mach64 table of hardware addresses.
* `PlacedExactly`, `HugeRequestWraps`: the 32-bit subtraction of the frame search wraps around for
  requests that exceed memory by more than 2^31 bytes, and what it then places does not fit.
* `FitYVU9Iff`, `TallYVU9Overflows`: the slack behind YVU9 planes is too small for some heights.
* `KeptListServes`, `StaleList`: a fixed buffer that changes is served the list of the earlier one.
* `AcceptedInsideIff`, `TableSuffices`, `ReserveHolds`, `CheckWraps`, `RadeonCheckWraps`: both size
  checks add up in 32 bits, so that requests of nearly 4 GB pass, whose lists fit no table.
* `CheckSufficesIff`, `OverlayLeftOut`: the radeon check leaves out the overlay offset, and so keeps
  transfers inside video memory only for an overlay at 0.
* `HasTableIff`: the mach64 driver has 64 tables, but accepts the indices 64 to 1023, all of them.
* `KeepsListIff`, `DescriptorsOverwritten`: the radeon check accepts transfers onto the descriptors.
  For an engine that starts at the table the condition is that a transfer lies beside its list.
* `NineLosesLuma`, `NineLosesLumaAt17`: one guard of the YUV9 cascade tests the wrong increment.
* `ChromaStart`, `ChromaTwoLinesCut`: with two or three lines of four cut off at the top, the G400
  chroma planes start a row early.
* `PackedOrigin`, `PackedOneLineCut`: packed frames cut off at the top start at half the distance.
* `VerticalSamples`, `LastRowWrong`: the last-row register is wrong when the first row is 1024 or beyond.

## Model

| member | source | states |
|---|---|---|
| `Ivtv.DeMacroY` | vidix/vidix/drivers/ivtv_vid.c:102-148 | after the triple loop every pixel of the window, its origin rounded down to a block, is at its address of the surface, and no other byte has changed; for any window inside the surface whose pixels exist in the source |
| `Ivtv.CopyStripY` | vidix/vidix/drivers/ivtv_vid.c:134-146 | one strip: the pointer arithmetic and the clipped last block follow the block-by-block traversal |
| `Ivtv.CopyBlockY` | vidix/vidix/drivers/ivtv_vid.c:138-145 | one block: its lines, with the strides of source and destination |
| `Tiling.TraversalTiles` | vidix/vidix/drivers/ivtv_vid.c:120-147 | copying strips of blocks of lines with clipped edges equals the address map applied to every pixel of the rectangle, and changes no other byte |
| `Tiling.ColumnRowOfAddress` | vidix/vidix/drivers/ivtv_vid.c:126-143 | column and row can be read back from 11520*(Y/16)+256*(X/16)+16*(Y%16)+X%16 |
| `Tiling.AddressOfColumnRow` | vidix/vidix/drivers/ivtv_vid.c:126-143 | every address belongs to a pixel: the map is onto |
| `Tiling.AddressInjective` | vidix/vidix/drivers/ivtv_vid.c:126-143 | no two pixels share an address |
| `Tiling.AddressBound` | vidix/vidix/drivers/ivtv_vid.c:385 | the pixels of the first rows stay in whole strips of 11520 bytes |
| `Tiling.TiledPixel` | vidix/vidix/drivers/ivtv_vid.c:102-148 | each source pixel is found at its address |
| `Tiling.TiledElsewhere` | vidix/vidix/drivers/ivtv_vid.c:102-148 | a byte that is no pixel's address keeps its value |
| `Tiling.UntileTile` | vidix/vidix/drivers/ivtv_vid.c:102-148 | reading the surface back through the address map returns the tiled plane |
| `Ivtv.DeMacroUV` | vidix/vidix/drivers/ivtv_vid.c:150-232 | refines the luma tiling: the result is that of tiling the plane made of alternating U and V bytes, at halved width, height and origin |
| `Ivtv.EightPixels` | vidix/vidix/drivers/ivtv_vid.c:189-209 | the unrolled path writes eight interleaved pixel pairs |
| `Ivtv.TailPixels` | vidix/vidix/drivers/ivtv_vid.c:211-228 | the tail path meets the same specification for the rest of a line |
| `IvtvPlayback.Driver.constructor` | vidix/vidix/drivers/ivtv_vid.c:385 | the surface buffer is allocated for the largest picture |
| `IvtvPlayback.Driver.ConfigPlayback` | vidix/vidix/drivers/ivtv_vid.c:444-473 | two frames one behind the other, and planes that end inside their frame |
| `IvtvPlayback.Driver.FrameSelect` | vidix/vidix/drivers/ivtv_vid.c:518-531 | the surface shows frame `k`, read from its own bytes only, and all writes stay inside the surface buffer |
| `IvtvPlayback.ShownFromBuffer` | vidix/vidix/drivers/ivtv_vid.c:526-531 | tiling out of the whole buffer depends on the bytes of the selected frame alone |
| `IvtvPlayback.LumaRecovered` | vidix/vidix/drivers/ivtv_vid.c:518-531 | luma reads back although chroma is tiled into the same buffer afterwards |
| `IvtvPlayback.ChromaRecovered` | vidix/vidix/drivers/ivtv_vid.c:518-531 | every chroma sample that is read comes back, of both planes |
| `IvtvPlayback.FrameRecovered` | vidix/vidix/drivers/ivtv_vid.c:518-531 | for even sizes all three planes of the frame are rebuilt from the surface |
| `IvtvPlayback.TellsFramesApartIff` | vidix/vidix/drivers/ivtv_vid.c:460-467 | the surface determines the frame if and only if both sizes are even or there are fewer than two pixels |
| `IvtvPlayback.OddFramesConfused` | vidix/vidix/drivers/ivtv_vid.c:460-467 | for every size with an odd side, two frames that look the same |
| `IvtvPlayback.ApartIff` | vidix/vidix/drivers/ivtv_vid.c:126-143 | the pixels of a plane have different addresses exactly if it is at most 720 wide or 16 high |
| `IvtvPlayback.BelowIff` | vidix/vidix/drivers/ivtv_vid.c:126-143 | a plane stays below a number of blocks exactly if its last block does |
| `IvtvPlayback.HeldIff` | vidix/vidix/drivers/ivtv_vid.c:385-531 | the pictures of which luma and chroma stay apart, inside the buffer and without two pixels at one place: exactly those up to 720x576 and very flat ones |
| `IvtvPlayback.WidePictureCollides` | vidix/vidix/drivers/ivtv_vid.c:385-531 | a 736x17 picture is not held |
| `MappingList.Helper.Map` | vidix/libdha/dhahelperwin/dhahelper.c:241-303 | a request that succeeds puts its entry at the end of the list and changes nothing before it, any other leaves the list alone; the block grows to exactly one entry more, for every outcome of the kernel calls, and every free passes the allocated size |
| `MappingList.Helper.Compact` | vidix/libdha/dhahelperwin/dhahelper.c:315-342 | in-place compaction is an order-preserving filter, releases the first match, and an exception finds nothing moved |
| `MappingList.Helper.Unmap` | vidix/libdha/dhahelperwin/dhahelper.c:305-359 | filters the list and keeps the block at exactly as many entries as are counted |
| `MappingList.Helper.Unload` | vidix/libdha/dhahelperwin/dhahelper.c:208-214 | the loop terminates and equals the recursive drain of the list |
| `MappingList.WithoutConcat` | vidix/libdha/dhahelperwin/dhahelper.c:315-342 | the removal distributes over concatenation, as a filter does |
| `MappingList.UnmapSplits` | vidix/libdha/dhahelperwin/dhahelper.c:315-355 | of several entries at an address an untroubled unmap releases the first, with its three calls in order, and the entries before and behind keep their order |
| `MappingList.UnmapOutcomes` | vidix/libdha/dhahelperwin/dhahelper.c:305-359 | every outcome for an address listed once, with list and calls: a fault keeps the list and what had been called, a missing shorter list leaves the last entry there twice, otherwise the entry is gone and released |
| `MappingList.AbsentAddress` | vidix/libdha/dhahelperwin/dhahelper.c:305-359 | an address that is not listed changes nothing, but fails for want of list memory all the same |
| `MappingList.NothingToRemove` | vidix/libdha/dhahelperwin/dhahelper.c:305-359 | an unmap leaves the list alone exactly when the address is not in it |
| `MappingList.MapAccounts` | vidix/libdha/dhahelperwin/dhahelper.c:241-303 | resources alive and resources listed stay equal exactly when the request succeeds or stops before it has acquired anything |
| `MappingList.MapLeaves` | vidix/libdha/dhahelperwin/dhahelper.c:255-287 | which resources a failed request leaves behind |
| `MappingList.UnmapAccounts` | vidix/libdha/dhahelperwin/dhahelper.c:315-355 | an untroubled unmap keeps the books exactly when at most one entry has the address |
| `MappingList.FaultAccounts` | vidix/libdha/dhahelperwin/dhahelper.c:327-338 | an exception leaves the list as it was, and the books right exactly when nothing had been released yet |
| `MappingList.NoListAccounts` | vidix/libdha/dhahelperwin/dhahelper.c:344-350 | without memory for the shorter list an unmap fails, and the books stay right exactly when the address was not listed |
| `MappingList.DuplicateAddressLeaks` | vidix/libdha/dhahelperwin/dhahelper.c:315-355 | two requests answered with one address: the unmap succeeds and the books no longer balance |
| `MappingList.FailedAppendLeaks` | vidix/libdha/dhahelperwin/dhahelper.c:282-287 | a request for which the list cannot grow keeps its I/O space |
| `MappingList.FaultLeaks` | vidix/libdha/dhahelperwin/dhahelper.c:327-338 | a fault after the first release call leaves an entry without its view |
| `MappingList.NoListLeaks` | vidix/libdha/dhahelperwin/dhahelper.c:344-350 | two areas, the first unmapped without memory for the shorter list |
| `MappingList.UnmapLeaves` | vidix/libdha/dhahelperwin/dhahelper.c:315-355 | a successful unmap releases view, MDL and I/O space of the removed entry and nothing else |
| `MappingList.RunAccounts` | vidix/libdha/dhahelperwin/dhahelper.c:241-359 | over every run with fresh addresses and no half-way failure nothing leaks and nothing is released twice |
| `MappingList.DrainReleasesAll` | vidix/libdha/dhahelperwin/dhahelper.c:214 | success means an empty list, with every entry released once, last-mapped first |
| `MappingList.ReleaseUndoesAcquire` | vidix/libdha/dhahelperwin/dhahelper.c:250-331 | the three release calls undo the three acquiring calls, the last one first |
| `MappingList.NewestFirst` | vidix/libdha/dhahelperwin/dhahelper.c:208-295 | after any history with different addresses, an unload that succeeds begins by releasing the request that was mapped last, call by call |
| `MappingList.LoadMapUnload` | vidix/libdha/dhahelperwin/dhahelper.c:208-303 | from load over any requests to the end of an unload: the log has the requests' calls and then three release calls for each, in the opposite order of the requests |
| `MappingList.DrainLeavesNothing` | vidix/libdha/dhahelperwin/dhahelper.c:214 | after a successful drain nothing is alive exactly when the books were right and all addresses different |
| `MappingList.CleanLifeLeavesNothing` | vidix/libdha/dhahelperwin/dhahelper.c:208-359 | from load to unload a clean run that drains successfully leaves nothing alive |
| `DmaList.EntryShape` | vidix/vidix/drivers/mach64_vid.c:1318-1331 | only the last entry carries the end mark, the others are full pages, none is empty; exact multiples of the page size included |
| `DmaList.CountsAddUp` | vidix/vidix/drivers/mach64_vid.c:1318-1331 | the byte counts of a list add up to the size of the request |
| `DmaList.ExecuteBuild` | vidix/vidix/drivers/mach64_vid.c:1300-1334 | walking the compiled list up to its end mark is one copy of the source to overlay plus destination offset, whatever else the table holds |
| `DmaList.ExecuteInsideIff` | vidix/vidix/drivers/mach64_vid.c:1302-1331 | the walk stays inside video memory exactly when the whole target does |
| `DmaList.OneListPerTable` | vidix/vidix/drivers/mach64_vid.c:1318-1331 | a table cannot start with two different compiled lists |
| `DmaList.BuildInjective` | vidix/vidix/drivers/mach64_vid.c:1318-1331 | two requests compile to one list exactly when position, size and the page addresses read are the same |
| `DmaList.TableSuffices` | vidix/vidix/drivers/mach64_vid.c:672 | a table with one entry per page of video memory holds the lists of exactly the requests that are not larger than video memory |
| `Mach64Dma.Driver.SetupFrame` | vidix/vidix/drivers/mach64_vid.c:1300-1334 | size check in 32 bits, replaced index, fixed-buffer shortcut, failed translation and the new list, as one step on tables and marks, for every request whose list fits its table; short of a wrap-around, too big is exactly what ends behind video memory |
| `Mach64Dma.HasTableIff` | vidix/vidix/drivers/mach64_vid.c:1303-1306 | the indices without a table are exactly 64 to 1023 |
| `Mach64Dma.FrameTransferAccepted` | vidix/vidix/drivers/mach64_vid.c:1302 | every transfer into frames that the search has placed is accepted, and succeeds if its pages are translated |
| `Mach64Dma.NewListWritten` | vidix/vidix/drivers/mach64_vid.c:1302-1331 | a request inside memory that no kept list serves leaves one descriptor for each started page, position, bus address, count and end mark in numbers; the rest of the table, the other tables and the other marks stay |
| `Mach64Dma.WriteList` | vidix/vidix/drivers/mach64_vid.c:1314-1331 | the loop, with its wrapping unsigned counter, writes the compiled list and keeps the rest of the table |
| `Mach64Dma.AcceptedInsideIff` | vidix/vidix/drivers/mach64_vid.c:1302 | a request the check lets through stays inside video memory exactly when its end does not wrap around |
| `Mach64Dma.CheckWraps` | vidix/vidix/drivers/mach64_vid.c:1302 | two requests that pass: one for which no table is large enough, one far behind video memory |
| `Mach64Dma.SetupCoherent` | vidix/vidix/drivers/mach64_vid.c:1304-1331 | one call keeps the invariant, for every plan whose written lists fit their tables: a marked slot holds the list a fresh build would give |
| `Mach64Dma.CallsCoherent` | vidix/vidix/drivers/mach64_vid.c:1373-1393 | so does every run of calls |
| `Mach64Dma.EveryCallDelivers` | vidix/vidix/drivers/mach64_vid.c:1300-1393 | after any run with fixed buffers each successful call whose end does not wrap around hands the engine a table whose walk copies exactly that buffer |
| `Mach64Dma.KeptListServes` | vidix/vidix/drivers/mach64_vid.c:1305 | for a slot reused otherwise the call succeeds without touching the table, and the kept list serves exactly when destination offset, size and the addresses of the pages read are those of the earlier buffer |
| `Mach64Dma.KeptListCopiesEarlier` | vidix/vidix/drivers/mach64_vid.c:1305 | in every case the engine copies the earlier buffer to the earlier place |
| `Mach64Dma.StaleList` | vidix/vidix/drivers/mach64_vid.c:1304-1313 | two calls after which the table does not serve the second |
| `RadeonDma.ReserveHolds` | vidix/vidix/drivers/radeon_vid.c:3130-3137 | the reserve holds the lists of exactly the requests that are not larger than video memory |
| `RadeonDma.WalkIsExecute` | vidix/vidix/drivers/radeon_vid.c:3130-3137 | for an engine started at a list in video memory: as long as the list writes beside itself, fetching it entry by entry is the same as reading a table apart |
| `RadeonDma.WalkDelivers` | vidix/vidix/drivers/radeon_vid.c:3452-3479 | such a transfer is one block copy and keeps its descriptors |
| `RadeonDma.Driver.PlaceFrames` | vidix/vidix/drivers/radeon_vid.c:3126-3157 | for every request: the frames fit exactly when it does not exceed memory by more than 2^31 bytes; then they lie in front of the reserve, clear of the visible framebuffer if more than three can, and the exact condition for failure; as many are kept as asked for, 1024 at most, unless one more does not fit behind a 64K block or would reach into the framebuffer |
| `RadeonDma.TransferIntoFrames` | vidix/vidix/drivers/radeon_vid.c:3130-3155 | for an engine started at the reserve: a transfer into the placed frames is one copy and leaves the whole reserve and everything else outside the frames as it is |
| `RadeonDma.Driver.SetupFrame` | vidix/vidix/drivers/radeon_vid.c:3452-3479 | the result in every case, with the size check in 32 bits: short of a wrap-around, too big is exactly an offset and size that end behind video memory; on success the list stands 16 bytes for each page of memory before its end, byte by byte as the packed struct has it, and nothing below has changed, otherwise nothing at all |
| `RadeonDma.Driver.WriteTable` | vidix/vidix/drivers/radeon_vid.c:3462-3477 | the loop, down to the bytes: for each page position, bus address, count with end mark and zero, in this order, least significant byte first, and no other byte changed |
| `RadeonDma.Driver.CopyFrame` | vidix/vidix/drivers/radeon_vid.c:3508-3516 | for an engine started at the table: a successful request that lies beside its list is one copy of its source |
| `RadeonDma.AcceptedListFits` | vidix/vidix/drivers/radeon_vid.c:3458 | a request that passes without wrapping around has a list that fits the reserve |
| `RadeonDma.CheckSufficesIff` | vidix/vidix/drivers/radeon_vid.c:3458-3467 | passing keeps all such requests inside video memory if and only if the overlay starts at 0 |
| `RadeonDma.RadeonAcceptedInsideIff` | vidix/vidix/drivers/radeon_vid.c:3458-3478 | for an engine started at the list, and a transfer that does not reach it: the walk ends inside video memory exactly when overlay, offset and size together do |
| `RadeonDma.OverlayLeftOut` | vidix/vidix/drivers/radeon_vid.c:3458 | two pages behind the end of video memory that pass |
| `RadeonDma.RadeonCheckWraps` | vidix/vidix/drivers/radeon_vid.c:3458 | a request of nearly 4 GB that passes |
| `RadeonDma.KeepsListIff` | vidix/vidix/drivers/radeon_vid.c:3452-3479 | whatever its source holds, a request leaves its own descriptors as they are exactly when it lies below them, or above them and inside video memory |
| `RadeonDma.KeepsReserveIff` | vidix/vidix/drivers/radeon_vid.c:3130-3137 | and the whole reserve, used or not, exactly when it ends below that |
| `RadeonDma.Overwritten` | vidix/vidix/drivers/radeon_vid.c:3458-3478 | a transfer that reaches beyond the start of its list overwrites the byte there, with the descriptors fetched from memory as the engine goes |
| `RadeonDma.DescriptorsOverwritten` | vidix/vidix/drivers/radeon_vid.c:3458 | an accepted request of two pages whose first page destroys the second descriptor before it is fetched |
| `FramePlacement.CountDown` | vidix/vidix/drivers/mach64_vid.c:1090-1095 | the loop finds the largest count whose offset reaches the limit |
| `FramePlacement.Search` | vidix/vidix/drivers/mach64_vid.c:1088-1105 | both passes, with the threshold of three frames between them |
| `FramePlacement.LargestIsExact` | vidix/vidix/drivers/mach64_vid.c:1090-1105 | without wrap exactly the counts up to the one found would have fitted |
| `FramePlacement.SearchPlaces` | vidix/vidix/drivers/mach64_vid.c:1089-1106 | aligned base, frames inside memory, the visible framebuffer avoided by the first pass, never fewer frames from the second, failure exactly when one frame does not fit |
| `FramePlacement.PlacedExactly` | vidix/vidix/drivers/mach64_vid.c:1090-1105 | for every request, as long as one frame and the visible framebuffer take less than 2^31 bytes together, the frames found fit exactly when the requested bytes exceed memory by at most 2^31 |
| `FramePlacement.FramesDisjoint` | vidix/vidix/drivers/mach64_vid.c:961-963 | two frames never overlap |
| `FramePlacement.CountKept` | vidix/vidix/drivers/mach64_vid.c:1084-1105 | how many frames are kept: all that were asked for, 1024 at most, unless one more would not fit, or would reach into the framebuffer where four or more stay clear of it |
| `Mach64Layout.QueryPitch` | vidix/vidix/drivers/mach64_vid.c:716-766 | the alignment is what the application asks for where it is one of the allowed powers of two and the chroma pitches are its halves or quarters, and the least one of the format otherwise |
| `Mach64Layout.PitchMultiple` | vidix/vidix/drivers/mach64_vid.c:768-793 | row pitches are multiples of 16, 32 or 64 and bounded under the driver's size limit |
| `Mach64Layout.RowHoldsPixels` | vidix/vidix/drivers/mach64_vid.c:768-793 | rows hold their pixels, of one, two or four bytes, and less than one alignment more |
| `Mach64Layout.FrameBytes` | vidix/vidix/drivers/mach64_vid.c:768-797 | the frame size in rows and pitch: exactly 256 bytes of slack for planar formats, 240 for packed ones where bit 4 would be set |
| `Mach64Layout.PlaneOrder` | vidix/vidix/drivers/mach64_vid.c:972-990 | chroma planes lie behind luma one after the other without overlap: u first for YV12 and YVU9, v first for I420 and IYUV; packed formats have none |
| `Mach64Layout.Fit420Iff` | vidix/vidix/drivers/mach64_vid.c:768-797 | 4:2:0 planes lie one behind the other inside the frame exactly when the height is even or the pitch at most 1024 |
| `Mach64Layout.FitYVU9Iff` | vidix/vidix/drivers/mach64_vid.c:778-797 | the same for YVU9, with the exact bound on pitch and remaining rows |
| `Mach64Overlay.TallYVU9Overflows` | vidix/vidix/drivers/mach64_vid.c:778-797 | a YVU9 picture of 720x716 does not fit its frame |
| `Mach64Overlay.SizesAligned` | vidix/vidix/drivers/mach64_vid.c:795-796 | frame sizes and plane offsets are multiples of 16, also after the I420 swap |
| `Mach64Overlay.MaskIsIdle` | vidix/vidix/drivers/mach64_vid.c:1013-1019 | masking the hardware addresses changes nothing |
| `Mach64Overlay.PlanesDisjoint` | vidix/vidix/drivers/mach64_vid.c:972-1011 | planes inside the frame and apart from each other, for every format, at the offsets the application is told |
| `Mach64Overlay.SideLimitSuffices` | vidix/vidix/drivers/mach64_vid.c:1079-1083 | the 720 limit gives 4:2:0 and packed frames the slack they need, odd heights included |
| `Mach64Overlay.HardwarePlanesDisjoint` | vidix/vidix/drivers/mach64_vid.c:961-1019 | no two planes of any frames overlap in video memory |
| `Mach64Overlay.Driver.FillOffsets` | vidix/vidix/drivers/mach64_vid.c:961-963 | the frame offsets the application is told |
| `Mach64Overlay.Driver.FillBases` | vidix/vidix/drivers/mach64_vid.c:1014-1019 | the addresses the hardware is given |
| `Mach64Overlay.Driver.InitVideo` | vidix/vidix/drivers/mach64_vid.c:961-1019 | each hardware address is overlay plus frame offset plus the plane offset told to the application; the planes lie one behind the other in the order of the format, told and programmed alike |
| `Mach64Overlay.Driver.ConfigPlayback` | vidix/vidix/drivers/mach64_vid.c:1074-1112 | the whole call for every request whose frames have a row in the table of hardware addresses: error cases by format and size, as many frames as asked for, 1024 at most, unless one more does not fit or would reach into the framebuffer, placement at the end of memory, the order of the planes, and agreement of told and programmed addresses |
| `Mach64Overlay.TableHoldsIff` | vidix/vidix/drivers/mach64_vid.c:1084-1107 | for every request within the size limit, the exact condition on memory, frame size, request and framebuffer under which at most 64 frames are granted, the rows of the table of hardware addresses |
| `Mach64Overlay.TableOverrun` | vidix/vidix/drivers/mach64_vid.c:1013-1019 | 1000 frames of 16x16 packed pixels in 8 MB are all granted |
| `Mach64Overlay.HugeRequestWraps` | vidix/vidix/drivers/mach64_vid.c:1090-1105 | 1024 frames of the largest size in 8 MB are granted and do not fit |
| `RadeonScaler.IncBounds` | vidix/vidix/drivers/radeon_vid.c:1689-1691 | the cast to 16 bits loses nothing from a sixteenth up, and the field limits are thresholds of the ratio |
| `RadeonScaler.Cascade16` | vidix/vidix/drivers/radeon_vid.c:1677-1744 | first affordable combination, and increments that belong to codes and ratio, for 16 bits per pixel |
| `RadeonScaler.Cascade32` | vidix/vidix/drivers/radeon_vid.c:1745-1862 | the same for 32 bits per pixel |
| `RadeonScaler.CascadeNine` | vidix/vidix/drivers/radeon_vid.c:1863-2027 | the same for YUV9, whose guards test the fields as well; one branch is unreachable |
| `RadeonScaler.CascadeHalf` | vidix/vidix/drivers/radeon_vid.c:2028-2201 | the same for formats 10 to 14 |
| `RadeonScaler.Besr.CalcHIncStepBy` | vidix/vidix/drivers/radeon_vid.c:1659-2207 | for every format and positive ratio: the first affordable combination, its cost within the budget, step sizes, rounded increments, fields of 0x3000 and 0x2000, group sizes, four taps only where the flags and the format permit them, no code 5 and no codes 3 and 4 together for packed formats, and registers whose masks lose nothing |
| `RadeonScaler.LumaRate` | vidix/vidix/drivers/radeon_vid.c:1677-2201 | the luma increment times ratio and step is 4096 up to rounding, with the steps and the least ratios of the formats in numbers; the group size is 2 at 16 bits per pixel and for four taps, otherwise 4 |
| `RadeonScaler.ChromaRate` | vidix/vidix/drivers/radeon_vid.c:1677-2201 | the same for the second increment: chroma has a sample for four pixels in YUV9, for two in formats 10 to 14 and for each in RGB |
| `RadeonScaler.SameRates` | vidix/vidix/drivers/radeon_vid.c:1677-1862 | in formats 3, 4 and 6 all components are sampled alike where their codes are equal |
| `RadeonScaler.FirstIsCostliest` | vidix/vidix/drivers/radeon_vid.c:1675-2203 | the choice is exactly the allowed combination that uses most of the fetch budget |
| `RadeonScaler.BudgetKept` | vidix/vidix/drivers/radeon_vid.c:1863-2206 | corollary of the choice: luma cost plus twice the chroma cost is at most 16 times the ratio, clamped only below the smallest one |
| `RadeonScaler.CodesFall` | vidix/vidix/drivers/radeon_vid.c:1675-2203 | with the same flags a larger ratio never gets a larger step code |
| `RadeonScaler.PackedCodes` | vidix/vidix/drivers/radeon_vid.c:2028-2201 | corollary of the choice: packed formats never get code 5 nor codes 3 and 4 together |
| `RadeonScaler.NineLosesLuma` | vidix/vidix/drivers/radeon_vid.c:1949-1973 | the exact ratios at which YUV9 steps luma by four although two would fit |
| `RadeonScaler.NineLosesLumaAt17` | vidix/vidix/drivers/radeon_vid.c:1949-1973 | one such ratio, 0.17 |
| `RadeonFilter.TapsAddUp` | vidix/vidix/drivers/radeon_vid.c:2457-2534 | all 380 sets of taps fit their signed fields and add up to 32, and the middle phase is symmetric |
| `RadeonFilter.TapsCentred` | vidix/vidix/drivers/radeon_vid.c:2457-2534 | the weighted centre of phase p lies within an eighth of a pixel of p eighths, the middle phase exactly half-way; from phase to phase neither the centre nor the weight of the next pixel goes back |
| `RadeonFilter.TapsSharpen` | vidix/vidix/drivers/radeon_vid.c:2457-2534 | from any row to any later one the weight of the pixel sampled does not fall, but for one 32nd in the first two phases |
| `RadeonFilter.UnpackPack` | vidix/vidix/drivers/radeon_vid.c:2545-2564 | a packed register decodes by sign extension to the taps |
| `RadeonFilter.RowOfIncrement` | vidix/vidix/drivers/radeon_vid.c:2540-2544 | the row is within 0 to 75 and is the one whose hundredth contains the down-scale ratio, which is 4096 over the increment between a quarter and one |
| `RadeonFilter.Besr.FilterSetup` | vidix/vidix/drivers/radeon_vid.c:2455-2564 | each of the five registers reads back taps of the increment's row that add up to 32, four, seven, seven and four bits at bits 0, 8, 16 and 24 |
| `RadeonFilter.IncrementNotZero` | vidix/vidix/drivers/radeon_vid.c:3066-3069 | up to a ratio of 0.75 the increment is above 340, and times the sampled ratio it is 4096 up to rounding |
| `RadeonFilter.FilterOfRatio` | vidix/vidix/drivers/radeon_vid.c:3066-3069 | the row used is at most one away from the row of the ratio the pixels are really scaled by, and from row 8 on; the lower clamp is idle |
| `RadeonFilter.SetUpShrinking` | vidix/vidix/drivers/radeon_vid.c:2888-2899 | the path from the cascade to the filter registers: choice, both packed registers, and five registers of taps for the sampled ratio |
| `Mga.LastPosition` | vidix/vidix/drivers/mga_vid.c:942-948 | the last pixel is sampled in the source, less than 4*(dw-1) below its last position |
| `Mga.WeightField` | vidix/vidix/drivers/mga_vid.c:994-996 | row and weight together are the full position, also when products wrap around |
| `Mga.Driver.SetHorizontal` | vidix/vidix/drivers/mga_vid.c:923-948 | the end register is the position of the window's last pixel, whatever is cut off |
| `Mga.Driver.SetVertical` | vidix/vidix/drivers/mga_vid.c:950-997 | scale, weight and last-row registers in terms of the position of the first line shown |
| `Mga.Driver.SetLumaOrigins` | vidix/vidix/drivers/mga_vid.c:956-961 | luma origins of the four buffers |
| `Mga.Driver.SetChromaOrigins` | vidix/vidix/drivers/mga_vid.c:967-992 | chroma origins of the four buffers |
| `Mga.Driver.TellOffsets` | vidix/vidix/drivers/mga_vid.c:829-846 | frame and plane offsets the application is told |
| `Mga.Driver.ConfigPlayback` | vidix/vidix/drivers/mga_vid.c:789-997 | error cases; the pitches the application is told; told offsets and programmed origins agree for every buffer and plane |
| `Mga.HorizontalSamples` | vidix/vidix/drivers/mga_vid.c:942-948 | pixels on the screen are sampled where the whole window samples them; end at most last, and less than 4*(dw-1) below it |
| `Mga.VisibleColumns` | vidix/vidix/drivers/mga_vid.c:921-925 | the coordinate register holds the visible columns, as many as are not cut off |
| `Mga.VisibleLines` | vidix/vidix/drivers/mga_vid.c:921-925 | and its vertical counterpart the visible lines |
| `Mga.VerticalSamples` | vidix/vidix/drivers/mga_vid.c:950-997 | lines continue the whole window's positions, all rows are in the source, and the last-row register is exact if and only if the first row is below 1024 |
| `Mga.PitchOfRows` | vidix/vidix/drivers/mga_vid.c:807-939 | rows hold the even number of pixels, rounded to 32 for planar formats, and with eight to spare for packed ones where bit 3 is set |
| `Mga.LastRowWrong` | vidix/vidix/drivers/mga_vid.c:997 | 2048 lines shown from line 1024 on |
| `Mga.PlanesFill` | vidix/vidix/drivers/mga_vid.c:810-846 | the three planes of a planar frame fill it without a gap, each plane as many rows as it has, in the order of the format |
| `Mga.LumaScan` | vidix/vidix/drivers/mga_vid.c:956-961 | reading on from a luma origin finds the rows where the application was told to put them, inside the plane |
| `Mga.ChromaOrigins` | vidix/vidix/drivers/mga_vid.c:967-992 | the same for where both chroma planes start on the G400 |
| `Mga.ChromaScan` | vidix/vidix/drivers/mga_vid.c:967-992 | and for reading on from there, up to the end of the plane |
| `Mga.ChromaStart` | vidix/vidix/drivers/mga_vid.c:967-971 | chroma starts at the row of the first luma row always with interleaved planes, and with separate planes exactly if that is the first or second of four |
| `Mga.ChromaTwoLinesCut` | vidix/vidix/drivers/mga_vid.c:967-971 | unscaled, two lines cut off: chroma starts at row 0 instead of 1 |
| `Mga.PackedFrames` | vidix/vidix/drivers/mga_vid.c:807-835 | a packed frame holds exactly its rows of two bytes a pixel, and frames lie apart |
| `Mga.PackedScan` | vidix/vidix/drivers/mga_vid.c:956-961 | reading on from a packed origin finds the rows where the application was told to put them, except that one of the two bytes of each skipped pixel is left out; nothing is skipped for windows that start on the screen |
| `Mga.PackedOrigin` | vidix/vidix/drivers/mga_vid.c:956-961 | for packed formats the origin is that of the first row shown exactly if that is row 0 |
| `Mga.PackedOneLineCut` | vidix/vidix/drivers/mga_vid.c:956-961 | a packed picture one line above the screen |

## Left out

- Register access, PCI scanning, port I/O, ioctl, mmap, interrupts, MTRR, waiting, printing and chip tables: no logic to prove.
- The vidixlib loader and its C++ wrapper: thin forwarding to functions outside this model.
- Non-zero source origins in the mach64 and radeon drivers and in ivtv frame selection: the mach64 source calls its own code for them broken, and ivtv passes the window width as row stride.
- IvtvPlayback.Driver.FrameSelect: asks for sizes up to 720x576. The driver checks no size; of the larger ones it handles exactly the flat pictures HeldIff names, which the surface map of this model, 720 columns wide, does not describe. The product of the sizes is not wrapped to 32 bits; the hand-over to the kernel driver is not modelled.
- Which chroma plane is U and which is V in ivtv: the driver passes the third plane as U, and the model follows it.
- Failed allocation of the ivtv buffers.
- MappingList.Helper.Map: what the kernel answers, and where an exception strikes, are parameters; the block is never null.
- MappingList.Helper.Unmap: the last block stays allocated when the list becomes empty, as in the source, and is not counted as a resource.
- Mach64Dma.Driver.SetupFrame: indices from 64 to 1023, for which there is no table, and accepted requests larger than video memory, whose lists do not fit a table (TableSuffices): the source then writes past its memory.
- DmaList.ExecuteBuild: requests of size 0 write no entry and so have no end mark; they are excluded.
- Locking of source memory, synchronous waiting and the start of the transfer in vixPlaybackCopyFrame.
- RadeonDma.Driver.SetupFrame: accepted requests larger than video memory, whose lists do not fit the reserve (ReserveHolds); bus addresses beyond 32 bits.
- RadeonDma.Driver.CopyFrame: as for SetupFrame, and with an engine that starts at the table; locking of memory is not modelled.
- RadeonDma.WalkDelivers: the engine is assumed to start where the list stands; the driver programs the address 0 and never computes the one of its table.
- RadeonDma.TransferIntoFrames: likewise.
- RadeonDma.Driver.PlaceFrames: how the frame size is computed is not modelled; memory is below 2^31 bytes.
- The mark that Rage 128 descriptors carry in addition, and the plane offsets of the radeon driver.
- Mach64Overlay.Driver.ConfigPlayback: what happens when more than 64 frames are granted, that is exactly when TableHolds fails: the source then writes past its table of hardware addresses.
- Mach64Overlay.Driver.FillBases: likewise frames beyond the 64 rows of the table.
- Mach64Overlay.Driver.InitVideo: likewise frames beyond the 64 rows of the table.
- FramePlacement.PlacedExactly: a frame and the visible framebuffer of 2^31 bytes or more together, which no supported card has room for.
- Mach64Overlay.SideLimitSuffices: YVU9 for heights that leave at most three rows over a multiple of eight; for the others FitYVU9Iff gives the condition, which depends on the pitch.
- The equalizer, colour keys, gamma and the vertical scaling of the mach64 and radeon drivers.
- RadeonScaler.Besr.CalcHIncStepBy: the ratio is a real number, so rounding in doubles is not modelled; the code's own rounding and its cast to 16 bits are.
- Above a ratio of 0.75 radeon_vid_init_video overwrites both cascade registers with simple values; this is not modelled.
- How the two flags against four-tap filtering follow from the line buffer: they are inputs, and every combination is covered.
- RadeonFilter.Besr.FilterSetup: the row index is computed on real numbers; a double just below a hundredth can select the row before.
- The mga frame search: it uses the frame size of the previous call; the buffer base is an input of the model.
- Mga.Driver.ConfigPlayback: sums and products with the window position are taken to wrap around, which the source leaves undefined for windows far off the screen; source widths above 32768, heights above 98304 and frames of 2^31 bytes, for which the source's signed products overflow; format and control bits, the flag for interleaved chroma and the second CRTC are not modelled.
- Mga.Driver.SetHorizontal: source widths above 32768, for which the last source position overflows.
- Mga.Driver.SetVertical: source heights above 98304, for which the scale can overflow.
- Mga.VerticalSamples: sources of more than 65536 lines, whose positions do not fit 32 bits.
- Mga.ChromaScan: separate chroma planes (G400); for interleaved ones only the start is related to the luma rows, since the layout the application uses is not visible in the driver.
