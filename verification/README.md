# VIIRS granule retrieval and quality masking, modelled in Dafny

This project models two halves of a small satellite-data toolkit.

- **Granule discovery and download** (`bulk_cmr_query.py`):
  - a preliminary search against the CMR granule endpoint gives a hit count;
  - the count is turned into one URL per result page (`ceil(hits / page_size)` pages, each with `&page_num=<x>`, and `granules?` rewritten to `granules.json?`);
  - every `.h5` link containing `https` is collected from each page's `feed.entry[].links[].href`, in page, entry and link order;
  - after a credential check, at most the first five links are downloaded, each to `data/<last URL segment>` in reads of at most 16 KiB.
- **Quality masking of VIIRS surface reflectance** (`main.py`):
  - the lists of acceptable 8-bit quality-flag values are built by testing `format(v, 'b').zfill(8)` for `v` in `0..255`;
  - the bands are wrapped in numpy masked arrays whose masks come from `np.in1d(qf, values, invert=True)`;
  - the 1 km QF6 grid is upsampled 2x2 with `np.kron` to fit the 500 m I3 band.

The network, the file system and the credential store are not modelled as effects. The search service, the page service and the file service are functions passed in. The credential lookup is a yes/no answer. A body being read is a sequence of reads that ends in an empty read.

Modules, in dependency order:

- `Outcomes` defines `Result`.
- `Numbers` defines ceiling division.
- `Text` models Python's `in`, `endswith`, `replace`, `split`, `join` and `str(n)` on strings.
- `CmrSearch` models `get_cmr_pages_urls`.
- `GranuleLinks` models the comprehension in `get_urls`.
- `Download` models `download_file`.
- `Pipeline` models `get_urls` and `main`.
- `BitStrings` models `format(v, 'b')` and `zfill`.
- `QualityFlags` models the value-list loops.
- `Masking` models `in1d`, `MaskedArray`, `kron`, `quality_filtering` and `calculate_surface_reflection`.

Behaviour of the code that the model keeps as it is:

- The credential check runs after link discovery has finished, so a run without credentials still performs every search and page request.
- Downloads are launched without a concurrency cap. In the model each download is a separate, independent result.
- The link filter's `https` is a substring test. A plain-`http` link whose path contains `https` is kept (`GranuleLinks.HttpsIsSubstringTest`).
- A failed search crashes `main`: `get_cmr_pages_urls` returns `None`, and `get_tasks` then iterates it (`Pipeline.Crash.NoPageList`).
- A zero page size raises `ZeroDivisionError`. A negative page size gives no pages.
- `np.ma.MaskedArray` repeats a one-cell mask over the whole data instead of rejecting it (`Masking.ApplyMaskBroadcast`).

## Model

| member | source | states |
|---|---|---|
| Numbers.CeilDivIsLeastCover | bulk_cmr_query.py:47 | the page count is the least number of pages of `page_size` hits that covers all hits; zero pages exactly when there are no hits |
| CmrSearch.SingleIdLikeList | bulk_cmr_query.py:26-27 | a single collection identifier is sent as a one-element `concept_id` list, and the result equals that of passing the list, whatever the server answers |
| CmrSearch.PageUrlsFailsExactly | bulk_cmr_query.py:42-47 | no page list exactly when the status is not 200 or the page size is zero; a non-200 status is reported with its code |
| CmrSearch.PageUrlShape | bulk_cmr_query.py:49 | the `granules?` rewrite never touches the appended page parameter: a page URL is the rewritten resolved URL followed by `&page_num=<x>` |
| CmrSearch.PageUrlInjective | bulk_cmr_query.py:48-51 | different page numbers give different page URLs |
| CmrSearch.PageUrlsEnumeratePages | bulk_cmr_query.py:46-51 | for status 200 and a positive page size: exactly `ceil(hits / page_size)` pages, enough for every hit and none spare; page `i` ends with page number `i + 1`; no duplicates |
| CmrSearch.NegativePageSizeNoPages | bulk_cmr_query.py:47-50 | a negative page size yields an empty page list, not an error |
| Text.ReplaceAllKeepsTail | bulk_cmr_query.py:49 | text appended after a string, lacking the last character of the pattern, passes through `str.replace` unchanged |
| Text.DecimalRoundTrip | bulk_cmr_query.py:49 | `int(str(n)) == n` for the page number rendered into the URL |
| Text.DecimalInjective | bulk_cmr_query.py:49 | distinct page numbers render as distinct digit strings |
| Text.Split | bulk_cmr_query.py:103 | `s.split(sep)` has at least one part, no part contains `sep`, and joining the parts with `sep` gives back `s` |
| Text.LastPartIsFinalSegment | bulk_cmr_query.py:103 | `url.split('/')[-1]` holds no `/`, ends the URL, and is the whole URL or is preceded by a `/` |
| GranuleLinks.ExtractLinks | bulk_cmr_query.py:84-89 | every extracted link contains `https` and ends with `.h5` |
| GranuleLinks.ExtractLinksIsFilter | bulk_cmr_query.py:81-89 | the nested comprehension equals an order-preserving filter over all hrefs of all pages, flattened in page, entry and link order |
| GranuleLinks.WantedCounts | bulk_cmr_query.py:88 | the filter keeps a wanted href exactly as many times as it occurs and drops every other href |
| GranuleLinks.ExtractLinksCounts | bulk_cmr_query.py:84-89 | an href is extracted as often as it appears across the pages when it passes the filter, never otherwise: no deduplication |
| GranuleLinks.ExtractLinksAppend | bulk_cmr_query.py:81-89 | responses contribute in submission order: extracting from two batches of pages concatenates the two results |
| GranuleLinks.UnwantedEntryAddsNothing | bulk_cmr_query.py:86-88 | an entry with no wanted link contributes nothing, wherever it stands |
| GranuleLinks.NothingWantedGivesEmpty | bulk_cmr_query.py:78-91 | pages without wanted links give an empty result, not an error |
| GranuleLinks.HttpsIsSubstringTest | bulk_cmr_query.py:88 | a plain-`http` `.h5` link whose path contains `https` passes the filter |
| Download.FirstEmpty | bulk_cmr_query.py:105-108 | the number of chunks written is the index of the first empty read: every earlier read is non-empty |
| Download.CopyChunks | bulk_cmr_query.py:104-111 | the read loop stops at the first empty read, writes the earlier chunks in order, counts them, and writes at most 16 KiB per chunk |
| Download.BodyChunksCount | bulk_cmr_query.py:106 | reading a whole body in 16 KiB reads takes `ceil(len / 16384)` non-empty reads |
| Download.BodyReadsDrain | bulk_cmr_query.py:104-111 | against a fully arrived body, the loop stops after `ceil(len / 16384)` reads of at most 16 KiB, and what it wrote is the body |
| Download.CopyBody | bulk_cmr_query.py:104-111 | running the loop on a body writes that body back unchanged, in `ceil(len / 16384)` chunks |
| Download.DownloadFileSaves | bulk_cmr_query.py:98-111 | a non-200 response writes nothing; a 200 response for a URL whose last segment is empty, `.` or `..` fails to open `data/` + that segment; otherwise the target is `data/` plus the URL text after its last `/`, and what is written is the leading non-empty answers of `read`, in order, up to the first empty one, each at most 16 KiB when the reads are |
| Download.DownloadArrivedBody | bulk_cmr_query.py:104-111 | against a fully arrived body, the saved chunks rebuild the body exactly, in `ceil(len / 16384)` non-empty chunks of at most 16 KiB |
| Download.H5FileName | bulk_cmr_query.py:103 | the file name of an `.h5` link ends in `.h5`, so it names a file rather than a directory |
| Pipeline.RunCrashesOnFailedSearch | bulk_cmr_query.py:63-65 | `main` ends in an exception exactly when the preliminary search does not return 200, whatever the credentials |
| Pipeline.RunDownloadsFirstFive | bulk_cmr_query.py:124-142 | the run downloads exactly when discovery succeeded and credentials exist; without credentials it stops after discovery; with them, file `i` of the first `min(5, n)` discovered links is the download of link `i`, independent of the others |
| Pipeline.RunOpensEveryTarget | bulk_cmr_query.py:88-103 | no download of a run fails to open its target, because every downloaded link passed the `.h5` filter |
| Pipeline.GetUrlsLinksWanted | bulk_cmr_query.py:71-91 | `get_urls` succeeds exactly when page enumeration does, and returns the filter of the pages' hrefs, in page order, all of them wanted |
| BitStrings.Binary | main.py:81 | `format(v, 'b')` is a non-empty string of binary digits |
| BitStrings.ZFillBinary | main.py:81 | padding `format(v, 'b')` with `zfill(n)` gives the fixed-width `n`-digit rendering for every `v < 2 ** n` |
| BitStrings.PaddedBinary | main.py:81 | the padded rendering has `n` binary digits, reads back as `v`, and digit `i` is bit `n - 1 - i` of `v` |
| BitStrings.BitValIsByte | main.py:81 | for `v < 256`, the loop's flag string has 8 binary digits, reads back as `v`, and digit `i` is bit `7 - i` |
| QualityFlags.Qf5GoodMeaning | main.py:81-82 | the QF5 test `bitVal[0:4] == '0000'` passes exactly for values below 16 |
| QualityFlags.Qf2LandMeaning | main.py:97-98 | the QF2 test passes exactly when the low three bits are neither `010` nor `011`, that is when `v % 8` is not 2 or 3 |
| QualityFlags.Qf6I3GoodMeaning | main.py:186-187 | the QF6 test `bitVal[2] == '0'` passes exactly when bit 5 of the value is clear |
| QualityFlags.KeepsMeaning | main.py:80-99 | each character test on `format(v, 'b').zfill(8)` agrees with its arithmetic reading for every `v < 256` |
| QualityFlags.SelectMembers | main.py:80-83 | the values a scan of `lo..hi` appends are exactly those in range that pass the test |
| QualityFlags.CollectValues | main.py:80-83 | the append loop over `range(count)` builds the ascending selection of values passing the test |
| QualityFlags.BuildValueList | main.py:75-83 | each loop's list holds exactly the 8-bit values its test accepts, strictly ascending |
| QualityFlags.ValueListMembers | main.py:96-99 | an integer is in a list exactly when it is in `0..255` and passes the list's arithmetic reading |
| QualityFlags.ValueListAscending | main.py:185-188 | each list is strictly ascending, so it has no repeated values |
| QualityFlags.ValueListSizes | main.py:75-99 | the QF5, QF2 and I3 lists hold 16, 192 and 128 values |
| QualityFlags.Qf5ListIsFirstSixteen | main.py:80-83 | the QF5 list is exactly `[0, 1, ..., 15]` |
| Masking.FlattenIndex | main.py:86 | once flattened row by row, cell `(i, j)` of an `R x C` grid sits at `i * C + j` |
| Masking.ReshapeIndex | main.py:86 | reshaping a flat sequence to `R x C` puts element `i * C + j` at cell `(i, j)` |
| Masking.ReshapeFlatten | main.py:86 | reshaping undoes flattening |
| Masking.FlattenReshape | main.py:86 | flattening undoes reshaping |
| Masking.NotIn | main.py:86 | `in1d(..., invert=True)` marks each flattened cell exactly when its value is missing from the list |
| Masking.ApplyMaskFails | main.py:191 | wrapping fails exactly when the mask holds neither one cell nor as many cells as the data, and the error reports both sizes |
| Masking.ApplyMaskBroadcast | main.py:86 | a one-cell mask is repeated over the whole data: its bit is ORed into every cell, whatever the data's shape |
| Masking.ApplyMaskCells | main.py:102 | with a flat mask of the data's size, the wrap keeps the data and the shape, and a cell is hidden exactly when it was hidden before or its row-major mask bit is set (`keep_mask`) |
| Masking.MaskByFlagsCells | main.py:86 | with a flag grid of the data's shape, wrapping succeeds and hides exactly the cells already hidden plus those whose flag is not in the list |
| Masking.MaskByFlagsSingleFlag | main.py:86 | a 1x1 flag grid hides every cell of the band or none beyond those already hidden, as its one value is missing from the list or not |
| Masking.FilterBandCells | main.py:86-105 | after the QF5 wrap and the QF2 re-wrap, a pixel is visible exactly when its QF5 flag is in the good list and its QF2 flag is in the land list |
| Masking.FilterBandCommutes | main.py:86-105 | because the re-wrap ORs the masks, swapping the QF5 and QF2 stages gives the same masked band |
| Masking.QualityFilterCells | main.py:75-105 | after both stages a pixel is visible exactly when its QF5 flag is below 16 and its QF2 flag is an 8-bit value whose `v % 8` is not 2 or 3 |
| Masking.KronRowIndex | main.py:178 | cell `j * Q + q` of a Kronecker row is `x[j] * brow[q]` |
| Masking.KronShape | main.py:178 | the Kronecker product of an `R x C` and a `P x Q` array is `(R * P) x (C * Q)` |
| Masking.KronCellAt | main.py:178 | cell `(i * P + k, j * Q + l)` of the Kronecker product is `a[i][j] * b[k][l]` |
| Masking.UpsampleCells | main.py:178 | `kron(qf6, ones((2, 2)))` is twice as tall and wide and cell `(i, j)` repeats flag `(i / 2, j / 2)` |
| Masking.DownsampleUpsample | main.py:178 | taking the top-left cell of each 2x2 block recovers the original flag grid |
| Masking.UpsampledMaskCells | main.py:177-191 | wrapping a grid twice the flag grid's size with the upsampled flags hides a pixel exactly when its block's flag is not in the list |
| Masking.SurfaceReflectionCells | main.py:177-191 | for an I3 grid twice the QF6 grid in each direction, the wrap succeeds, keeps the data, and hides a pixel exactly when its QF6 flag is outside `0..255` or has bit 5 set |
| Masking.SurfaceReflectionMismatch | main.py:191 | when the I3 grid holds a different number of cells from the upsampled QF6 grid, the wrap raises the size error |

## Left out

- Network I/O, `asyncio`, `aiohttp` sessions, `aiofiles` and the progress `print`s. The search, page and file services are function parameters. Files written are values (`SavedFile`).
- The sizes of the answers `read(16 * 1024)` gives on a live connection: the model takes them as given in `Download.DownloadResponse` and bounds the written chunks by 16 KiB only when the answers are so bounded.
- Opening `data/<name>` fails in the model only when the name is empty, `.` or `..`. A missing `data/` directory or other operating-system errors on open are not modelled.
- Concurrency of the page fetches and downloads. `asyncio.gather` returns results in submission order, and that is what the model uses. Two links with the same final segment writing the same file is a race that the model does not represent.
- Reading `~/.netrc`: the credential lookup is a boolean. `earthdata_login.py` is not part of this model.
- `datetime.strftime`: the `temporal` text of `main` is a constant string, and other ranges are opaque text.
- CmrSearch.PageCount: uses exact integer ceiling division. `math.ceil(hits / page_size)` goes through a float and could round differently for hit counts beyond 2 ** 53.
- A missing or non-numeric `CMR-Hits` header (`KeyError`/`ValueError`), and a negative one, are not modelled: hits are a natural number.
- Malformed page JSON (missing `feed`, `entry`, `links` or `href` keys) is not modelled. Pages are typed values.
- `str.zfill` on a signed string is not modelled. Only non-negative values are rendered.
- QualityFlags.Keeps: `bitVal[2]` on a string shorter than three characters would raise `IndexError`. It is modelled as "not kept". The loops only ever test 8-character strings.
- HDF5 reading, scale factors, fill values, NDVI/EVI arithmetic and plotting (floating point and I/O). Band data is a generic cell type `T`, and flag grids hold integers.
- `quality_filtering` wraps four bands (red, green, blue, NIR) identically. The model states it for one band (`Masking.QualityFilter`).
- numpy's `nomask` shortcut and mask sharing or copying semantics are not modelled. A mask is always a full boolean grid.
