# IcedChive crawler core, modelled in Dafny

This project models the crawl pipeline of IcedChive, a desktop image viewer that
streams pictures from a paginated listing site. The pipeline has two parts:

- **`Chiver` (src/chive/mod.rs)** is a resumable four-stage state machine. It keeps
  three URL stacks: listing `pages`, per-post `sub_pages` and `images`. Each
  `download` call does at most one fetch. When it succeeds, it moves one stage along
  the cycle None → Page → SubPage → Image → None. A failed call leaves the stage as
  it was. The stream around it waits for two pacing
  tokens before a cycle starts. It stops again after a `Done` or `Error` event.
- **The parser (src/chive/parser.rs)** does four things. It builds the 282 listing
  URLs. It picks the card links out of a listing page. It finds the gallery JSON
  embedded in a post page: a marker search, then a brace-depth scan. It selects,
  flattens and normalises the image URLs of the gallery items.

Modules and files:

| file | module | models |
|---|---|---|
| wrappers.dfy | `Wrappers` | `Option` and `Result` |
| text.dfy | `Text` | brace counting, first-occurrence search (`str::find`), decimal printing |
| rand.dfy | `Rand` | `shuffle`, driven by an explicit sequence of random choices |
| app.dfy | `App` | the `Download` event enum of src/lib.rs |
| parser.dfy | `Parser` | src/chive/parser.rs |
| chive.dfy | `Chive` | src/chive/mod.rs |

The data types follow the source's:

- `Chive.State` is the `State` enum (src/chive/mod.rs:20-26).
- `Chive.Crawl` holds the `Chiver` fields `pages`, `sub_pages`, `images`,
  `is_running` and `state` (src/chive/mod.rs:28-36). The class `Chive.Chiver` keeps
  the same fields, and `Chiver.Snapshot` reads them as a `Crawl`. The `client` field
  is left out with the HTTP client setup.
- `App.Download` is the `Download` enum (src/lib.rs:176-180). Its `f32` progress is
  modelled as an integer and its `Vec<u8>` as a sequence of `App.byte`.

Everything outside the crawler is passed in as a value. The network is
`Env.fetch`, a function from URL to response. Each stage reads `Env.fetch` only for
the URL it has just popped. The HTML card selector is `Env.cards`, the JSON decoder
`Env.decode` and the URI parser `Env.parseUri`. The random source of the one shuffle
a step may do is `Env.choices`.

`Chiver` is a class with `seq` fields. Its `Download`, `Gate` and `Poll` methods
update those fields in place. Each method's postcondition ties the new state to a
pure function of the old state: `DownloadStep` for `Download`, `Opened` for
`Gate` and `StreamStep` for `Poll`. The crawl
properties are lemmas about those functions. `find_json` is a method. Its brace-counting
`for` loop with `break` is the method `ScanEnd`. Together they are proved equal
to `JsonBlob`, a loop-free statement of what `find_json` returns. The parser's
iterator pipelines are functions. Each shuffle is modelled as "some permutation":
the result has the same multiset of elements.

Three points about the crawl cycle follow from the code of `download` and the
stream:

- A failed fetch still consumes the URL popped before it. The stacks are not
  restored (`Chive.FailureConsumesPoppedUrl`).
- After a failure, the next gated cycle restarts at the idle stage, because the gate
  resets `state`. The stacks carry over, so the refill-only-when-empty rules skip
  forward to where work remains.
- The progress markers are 1, 10 and 20.

## Model

| member | source | states |
|---|---|---|
| `Text.IndexOf` | src/chive/parser.rs:74 | The marker search finds the first occurrence. The pattern occurs at the result and nowhere before it. The result is `None` exactly when the pattern occurs nowhere. |
| `Text.FindChar` | src/chive/parser.rs:76 | The `{` search finds the first `{` at or after the start. The result is `None` exactly when there is none. |
| `Text.Decimal` | src/chive/parser.rs:17 | The `{}` formatting of a page number: a non-empty string of decimal digits. `DecimalRoundTrip` shows that it can be read back. |
| `Text.DecimalRoundTrip` | src/chive/parser.rs:17 | A page number printed in decimal reads back as the same number, so distinct page numbers give distinct URLs. |
| `Rand.Shuffle` | src/chive/parser.rs:19 | Whatever the random choices, a shuffle returns a permutation of its input: same length, same multiset. |
| `Rand.DistinctPermutation` | src/chive/parser.rs:19 | A permutation of a repeat-free list is repeat-free. |
| `Parser.PageUrl` | src/chive/parser.rs:14-18 | The `map` closure: page 1 is `CHIVE_URL + "/"`, and page i is `CHIVE_URL + "/page/" + i + "/"`. `PageUrlInjective` and `PageListMembership` pin it down. |
| `Parser.PageList` | src/chive/parser.rs:14-18 | The URLs of pages 1..=282 in order, before the shuffle. What it holds is `PageListMembership`, and that it is repeat-free is `PageListDistinct` (used by `InitChivePagesSpec`). |
| `Parser.PageUrlInjective` | src/chive/parser.rs:14-18 | Different page numbers map to different listing URLs, including page 1's special form. |
| `Parser.PageListMembership` | src/chive/parser.rs:14-18 | The unshuffled list holds exactly `CHIVE_URL + "/"` and `CHIVE_URL + "/page/" + i + "/"` for i in 2..282. |
| `Parser.InitChivePages` | src/chive/parser.rs:12-21 | `init_chive_pages` yields 282 URLs that are a permutation of the unshuffled list. `InitChivePagesSpec` says which URLs those are. |
| `Parser.InitChivePagesSpec` | src/chive/parser.rs:12-21 | `init_chive_pages` gives exactly 282 distinct URLs, and a URL is among them iff it is one of those listing URLs. |
| `Parser.Attrs` | src/chive/parser.rs:28-32 | The `filter_map` over an attribute: at most one value per element. Which values are kept is `AttrsMembership`. |
| `Parser.AttrsMembership` | src/chive/parser.rs:30 | A value is among the collected attribute values iff some element has that attribute with that value. |
| `Parser.ParseChivePage` | src/chive/parser.rs:23-35 | `parse_chive_page` always returns `Ok`, holding a permutation of the `href`s of the matched anchors. Anchors without `href` are dropped. |
| `Parser.ParseChivePageLinks` | src/chive/parser.rs:28-34 | A link is in the result iff some matched anchor has it as `href`. |
| `Parser.FromMarker` | src/chive/parser.rs:74-75 | The text searched for the JSON (`content`) is the suffix of the input that starts at the first marker occurrence. The marker occurs there and nowhere earlier. It is `None` iff the marker is absent. |
| `Parser.FirstOpen` | src/chive/parser.rs:76 | `content.find('{')`: `FindChar` from 0, so the first `{`, or `None` iff there is none. |
| `Parser.FirstClose` | src/chive/parser.rs:79-90 | The scan's exit point is the first `}` where the depth counted from the marker returns to 0, and no earlier position qualifies. `None` means no position does. |
| `Parser.NoCloseBeforeFirstOpen` | src/chive/parser.rs:76-90 | The depth cannot return to 0 at or before the first `{`. So the exit point is never before `start`, and the slice at line 92 is well formed. |
| `Parser.BlobEnd` | src/chive/parser.rs:77-92 | The end of the returned piece is the exit point, or `start` when the scan never exits. Either way it lies within the text at or after `start`. |
| `Parser.JsonBlobAfter` | src/chive/parser.rs:73-97 | The marker search, the first `{` and the end of the scan, stated for any marker. Characterised by `JsonBlobNone`, `JsonBlobStart`, `JsonBlobBalanced` and `JsonBlobRoundTrip`. |
| `Parser.JsonBlob` | src/chive/parser.rs:73-97 | What `find_json` returns: `JsonBlobAfter` with the `CHIVE_GALLERY_ITEMS` marker. `FindJson` is proved equal to it. |
| `Parser.FindJson` | src/chive/parser.rs:73-97 | `find_json` returns exactly the loop-free `JsonBlob`. |
| `Parser.ScanEnd` | src/chive/parser.rs:77-91 | The brace-counting loop with its early `break` ends at `BlobEnd`: the first `}` that brings the count back to zero, or `start` when none does. |
| `Parser.JsonBlobNone` | src/chive/parser.rs:74-96 | The result is `None` iff the marker does not occur, or no `{` follows its first occurrence. |
| `Parser.JsonBlobStart` | src/chive/parser.rs:74-92 | A result is a slice of the input. It begins at the first `{` after the first marker, so its first character is `{`. |
| `Parser.JsonBlobUnbalanced` | src/chive/parser.rs:77-92 | When the braces never rebalance, `end` stays at `start` and the result is the single character `{`. |
| `Parser.JsonBlobBalanced` | src/chive/parser.rs:77-92 | When every `}` after the marker has an earlier `{` and the braces rebalance, there is a result and it ends in `}`. It holds as many `{` as `}`, and every proper non-empty prefix has positive depth, so it ends at the first return to depth 0. |
| `Parser.JsonBlobRoundTrip` | src/chive/parser.rs:73-97 | Conversely, when the first marker is followed, with no brace in between, by an object that opens with `{`, has as many `{` as `}` and stays open until its last character, the extraction returns exactly that object. |
| `Parser.GroupBalanced` | src/chive/parser.rs:79-92 | The piece from the first `{` to the first rebalancing `}` is a balanced group that stays open until its last character. |
| `Parser.PrefixesOpen` | src/chive/parser.rs:79-90 | Until the exit point, every prefix of the group has positive depth. |
| `Parser.ParseChiveSub` | src/chive/parser.rs:37-71 | `parse_chive_sub`: `find_json`, then `ParseGallery` on its outcome. Its failures are given by `ParseChiveSubErrors` and its successes by `ParseChiveSubImages`. |
| `Parser.ParseGallery` | src/chive/parser.rs:38-70 | It succeeds iff JSON was found, it decodes, and its `items` is an array. It then returns a permutation of the normalised image sources of those items. |
| `Parser.ParseChiveSubErrors` | src/chive/parser.rs:38-42 | `parse_chive_sub` fails in exactly four cases, each with its message: no JSON found, the decoder fails, no `items`, or `items` not an array. |
| `Parser.Sources` | src/chive/parser.rs:44-60 | Each item's attribute values, flattened in item order. Which values appear is `SourcesMembership`. |
| `Parser.SourcesMembership` | src/chive/parser.rs:44-60 | A source is in the flattened list iff it is in some item's own list. |
| `Parser.Links` | src/chive/parser.rs:61-67 | Parse and normalise each source, dropping those that do not parse, so there is at most one link per source. Which links appear is `LinksMembership`. |
| `Parser.LinksMembership` | src/chive/parser.rs:61-67 | A link is kept iff some source parses as a URI that normalises to it. Sources that fail to parse are dropped. |
| `Parser.SourceAttr` | src/chive/parser.rs:47-55 | The attribute an item's imgs are read from: `data-gifsrc` when its type is "gif", otherwise `src`, with a missing type read as "attachment". Pinned down by `ItemLinksMembership` and `GifAndPlainItems`. |
| `Parser.ItemSources` | src/chive/parser.rs:48-58 | One item's `filter_map`: the values of `SourceAttr` on its imgs, in order. By `AttrsMembership`, a value is there iff some img carries it. |
| `Parser.ItemLinksMembership` | src/chive/parser.rs:44-67 | A link comes out of the items iff some img of some item carries its item's attribute (`data-gifsrc` for type "gif", otherwise `src`, with type defaulting to "attachment") and that value parses and normalises to the link. |
| `Parser.ParseChiveSubImages` | src/chive/parser.rs:39-70 | Once the extracted JSON decodes to a document whose `items` is an array, the result is `Ok`. It holds a permutation of the normalised sources of all items, flattened in item order, and a link is in it iff some img of some item yields it. |
| `Parser.Normalize` | src/chive/parser.rs:62-67 | The URI rebuilt as scheme "://" host path. `NormalizeDropsPortAndQuery` says what it forgets. |
| `Parser.NormalizeDropsPortAndQuery` | src/chive/parser.rs:62-67 | Normalisation keeps only scheme, "://", host and path. URIs that differ only in port or query give the same link. |
| `Parser.GifAndPlainItems` | src/chive/parser.rs:47-56 | A gif item contributes its `data-gifsrc` and a default-type item its `src`, even when both attributes are present. |
| `Parser.GifAndPlainGallery` | src/chive/parser.rs:38-70 | The same gif item and plain item carried through to the result of `parse_chive_sub`. When they decode and their kept sources parse to u1 and u2, the result holds exactly the normalised u1 and u2. |
| `Chive.Chiver.constructor` | src/chive/mod.rs:39-48 | `Chiver::default` starts with empty stacks, stopped, at the idle stage. |
| `Chive.Chiver.Download` | src/chive/mod.rs:73-115 | `download` updates the fields and returns exactly what `DownloadStep` prescribes for the old state. |
| `Chive.Chiver.Gate` | src/chive/mod.rs:129-137 | After two received tokens, a stopped crawler is running and idle, with its stacks unchanged. |
| `Chive.Chiver.Poll` | src/chive/mod.rs:128-150 | One pull of the stream matches `StreamStep`. Gate if stopped, one `download`, an error turned into an `Error` event, and a stop after `Done` or `Error`. |
| `Chive.PageText` | src/chive/mod.rs:86-96 | `send().await?.text().await?`: the body text, or the error of whichever await failed. `PageStage` and `SubPageStage` use it for success iff the text arrives. |
| `Chive.DownloadStep` | src/chive/mod.rs:73-115 | One `download` call as a function of the old state. It never changes the running flag. The stage lemmas below give its behaviour stage by stage. |
| `Chive.Opened` | src/chive/mod.rs:129-137 | The gate: a stopped crawler becomes running and idle, and a running one is left as it is. Its effect is stated by `StreamGate`. |
| `Chive.StreamStep` | src/chive/mod.rs:128-149 | One pull is the gate, one `DownloadStep`, an error turned into an `Error` event, and a stop on `Done` or `Error`. It is characterised by `StreamGate`, `RunningPull` and `GatedCycle`. |
| `Chive.DownloadAdvancesOneStage` | src/chive/mod.rs:75-113 | A successful step advances exactly one stage of the cycle. A failed step keeps the stage. The idle stage never fails. A success reports the stage's marker 1/10/20, or `Done` from `Image`. |
| `Chive.IdleStage` | src/chive/mod.rs:76-82 | Idle refills `pages` with the 282 distinct listing URLs only when it is empty, and keeps a non-empty `pages`. It touches no other stack, moves to `Page` and returns `Progress(1)`. |
| `Chive.StageSkipsWhenFilled` | src/chive/mod.rs:83-101 | `Page` with sub-pages queued and `SubPage` with images queued do not depend on the network. They change only the stage and return `Progress(10)` or `Progress(20)`. |
| `Chive.PageStage` | src/chive/mod.rs:83-92 | With `sub_pages` empty, `Page` pops exactly one page. An empty `pages` fails with "Pages is empty!" and changes nothing. Success happens iff the page text arrives, and makes `sub_pages` a permutation of that page's hrefs. On failure `sub_pages` is not reassigned. |
| `Chive.SubPageStage` | src/chive/mod.rs:93-102 | With `images` empty, `SubPage` pops exactly one sub-page. An empty `sub_pages` fails with "SubPages is empty!" and changes nothing. Success happens iff the text arrives and the gallery parses, and sets `images` to the parsed gallery. On failure `images` is not reassigned. |
| `Chive.ImageStage` | src/chive/mod.rs:103-113 | `Image` always pops one image. An empty `images` fails with "Images is empty!". Success happens iff the status is 200 and the bytes arrive, and gives `Done(bytes, url)` for the popped URL and returns to idle. Any other status fails with "Http status: …, url" and the stage stays `Image`. |
| `Chive.FailureConsumesPoppedUrl` | src/chive/mod.rs:83-113 | On any failure, the stage is unchanged and exactly the popped stack is one shorter: the consumed URL is not restored. Only an empty stack leaves the state as it was. |
| `Chive.StacksRefilledOnlyWhenEmpty` | src/chive/mod.rs:75-113 | No step overwrites a non-empty stack. Each stack is either kept or loses its last URL, unless it was empty. |
| `Chive.SingleImageDrained` | src/chive/mod.rs:103-113 | With one image queued and a good response, one step empties `images`, returns to idle and yields `Done(bytes, url)`. |
| `Chive.EmptyListingExhaustsSubPages` | src/chive/mod.rs:83-97 | A listing page without card links still succeeds with `Progress(10)`. The next step, with no images queued, then fails with "SubPages is empty!". |
| `Chive.Emit` | src/chive/mod.rs:138-144 | An `Err` becomes an `Error` event carrying its message, and an `Ok` value is passed through. Used by `StreamStep`, whose behaviour `StreamGate` states. |
| `App.IsTerminal` | src/chive/mod.rs:145 | `Error` and `Done` end a cycle. `StreamGate` shows that the crawler stays running iff the event was not terminal, that is, a `Progress`. |
| `Chive.StreamGate` | src/chive/mod.rs:128-149 | A stopped crawler is reset to running and idle before its step. After the step it is running iff the event was a `Progress`. |
| `Chive.RunningPull` | src/chive/mod.rs:138-148 | For a running crawler, a pull either emits a terminal event and stops, or emits the current stage's marker and moves to the next stage. |
| `Chive.Run` | src/chive/mod.rs:128-150 | Successive pulls of the `unfold` stream, one environment per pull, up to and including the first terminal event. `RunFromStage` and `GatedCycle` state what they emit. |
| `Chive.RunFromStage` | src/chive/mod.rs:128-149 | From stage i, the pulls emit the markers of stages i, i+1, … and then exactly one terminal event, within 4 − i pulls. |
| `Chive.GatedCycle` | src/chive/mod.rs:128-149 | One gated cycle emits a prefix of Progress(1), Progress(10), Progress(20), then exactly one `Done` or `Error`. That is at most 4 events, and the crawler ends stopped. |

## Left out

- HTTP client construction is not modelled (src/chive/mod.rs:50-71): the proxy choice from the command line, the user-agent header and the cookie store. Every fetch is a call to `Env.fetch`. Library error texts and the status display text are opaque strings.
- The async machinery is not modelled: `Recipe::hash`, the tokio `Mutex` and mpsc channel, and the `unfold` plumbing (src/chive/mod.rs:118-131). The two `recv` calls appear only as `Gate`'s precondition (two tokens received) and `Poll`'s. The `unwrap` on a closed channel is not modelled.
- Logging (`info!`, `warn!`) and the `Instant` timings are dropped. They do not affect results.
- src/scheduler.rs is not part of this model. It is concurrent token sending over a capacity-1 channel plus timer sleeps, and its one computation is floating point.
- HTML selection (scraper), JSON decoding (serde_json) and URI parsing (`http::Uri`) are foreign libraries. Their outputs are inputs here: elements as attribute maps, items as an optional type plus img elements, documents as the shape of `items`, URIs as components.
- A relative URI makes `scheme().unwrap()` / `host().unwrap()` panic (src/chive/parser.rs:63-64). The model's `Uri` always has a scheme and a host, so that panic is not modelled.
- `find_json` counts characters with `chars().enumerate()` but slices by byte offset. The model works on `seq<char>`, where the two agree, which is true of ASCII input. Non-ASCII input can mis-slice or panic, and that is not modelled.
- `find_json`'s `stack` is an `i32`. The model uses an unbounded integer, so overflow after 2^31 braces is not modelled.
- `thread_rng` is not modelled. A shuffle takes its random choices as a parameter, and only "the result is a permutation" is claimed.
- The `f32` progress values are modelled as the integers 1, 10 and 20 that they always hold.
- Parser.JsonBlobBalanced: stated only for inputs where every `}` after the marker has an earlier `{`. The scan counts depth from the marker, not from the first `{`, so a stray `}` in between shifts where it stops. Only the general facts (`JsonBlobStart`, `JsonBlobUnbalanced`) are proved for such inputs.
- Parser.JsonBlobRoundTrip: stated only when no brace lies between the marker and the object. A stray brace there shifts the count, and then the extraction does not return the object.
- The GUI reducer, view, subscription wiring and Save handler of src/lib.rs are not part of this model (UI and file-system code). Neither are src/iced_chive.rs, src/utils.rs (not in the crate's module tree) or src/main.rs (logger setup and launch).
