# SteamSale, modelled in Dafny

`SteamSale.py` polls the Steam store front page. It collects the daily-deal
containers into a list of sale records and prints that list as a table. Every
five minutes it prints the table again if the list changed. This project
models what the program decides, separately from how it fetches:

- **Input.** Each deal container is given as the values its HTML lookups
  produced. These are an optional title (from the deal's detail page) and
  optional price, original-price and discount strings (`Records.Container`).
- **Records.** A record is a Python dict with the key `game_name` and then as
  many of `game_price`, `game_orig_price` and `game_discount` as were found
  before the first missing one (`Records.SaleItem`). Dict equality is the
  datatype's equality.
- **Title cleanup** (`get_game_name`). The anchored pattern
  `^(Save) [0-9]*%* (on)+ ` is removed by a small scanner. The lemmas prove
  that the scanner removes exactly the text the pattern matches, and only at
  the front. Then every occurrence of `on Steam` is deleted, as
  `str.replace` does (module `Titles`).
- **Store parse** (`parse_store`). The records are accumulated with
  de-duplication (`Records.Collect`), then stably sorted by name
  (`Ordering.SortItems`). Python 3's `TypeError` from comparing a `None`
  name is an explicit error outcome. The class `Scraper.SteamSale` holds
  `sale_items` as a field. Its `ParseStore` loop is proved against these
  functions.
- **Rendering** (`sale_items_string`). The output is a two-line header, then
  one padded line per record with all four keys. Padding never cuts a value
  short. A complete record whose name is `None` makes `format` raise
  `TypeError` (module `Rendering`, method `SaleItemsString`).
- **Polling loop** (`loop`). One pass of its `while` body: scrape, compare
  with the held list, and on a difference announce, replace and re-render
  (`Scraper.Step`, method `LoopStep`).

The clock is a parameter: `now` is the text of `datetime.now()`. The fetched
page is the sequence of containers.

Two behaviours of the code are worth knowing:

- The regular expression needs a space both before and after the digit and
  percent runs. So a title such as `Save on Foo Bar on Steam` keeps its
  `Save on ` and only loses `on Steam` (`Titles.SaveWithoutPercentKept`).
  The model follows the code here.
- `str.replace` deletes the occurrences present in its input. An occurrence
  formed by joining the text around a deleted one stays
  (`Titles.RemoveAllSinglePass`).

## Model

| member | source | states |
|---|---|---|
| Titles.DigitSpan | SteamSale.py:82 | the length of the greedy `[0-9]*` run: all digits up to it, and a non-digit or the end right after it |
| Titles.PercentSpan | SteamSale.py:82 | the length of the greedy `%*` run, followed by a non-`%` or the end |
| Titles.OnSpan | SteamSale.py:82 | the number of leading copies of `on`, after which no further `on` follows |
| Titles.StripOns | SteamSale.py:82 | the `(on)+ ` stage succeeds only when the text is at least one `on`, then a space, then the returned rest |
| Titles.StripPercents | SteamSale.py:82 | models the `%* ` part of the pattern: the greedy percent run, then a space, then the `(on)+ ` stage; `StripPercentsOf` and `StripSound` state what it consumes |
| Titles.StripRuns | SteamSale.py:82 | models the `[0-9]*` part of the pattern: the greedy digit run, then the later stages; `StripRunsOf` and `StripSound` state what it consumes |
| Titles.StripSavePrefix | SteamSale.py:90 | the substitution changes a title only when the title starts with `Save ` |
| Titles.OnSpanIs | SteamSale.py:82 | the `(on)+` run followed by a space is counted exactly: `k` copies of `on` then a space give a count of `k` |
| Titles.StripOnsOf | SteamSale.py:82 | one or more `on` and a space are removed, leaving the rest |
| Titles.StripPercentsOf | SteamSale.py:82 | a run of `%` and a space are removed before the `(on)+ ` stage |
| Titles.StripRunsOf | SteamSale.py:82 | a run of digits is removed before the `%` stage |
| Titles.StripRemovesPrefix | SteamSale.py:82-90 | every text the pattern describes (`Save `, digits, percent signs, a space, one or more `on`, a space) is removed from the front, and the rest is kept intact |
| Titles.StripSound | SteamSale.py:82-90 | when the substitution changes a title, the title is a text the pattern describes followed by the result: nothing is removed anywhere but the front |
| Titles.RemoveAll | SteamSale.py:90 | deleting a literal never makes the string longer |
| Titles.RemoveAllUnchanged | SteamSale.py:90 | `replace('on Steam', '')` leaves a string unchanged, and keeps its length, exactly when the literal occurs nowhere in it, inside words included |
| Titles.RemoveAllFirst | SteamSale.py:90 | when the first occurrence starts right after `a`, the result is `a` followed by the deletion applied to what follows that occurrence |
| Titles.RemoveAllSinglePass | SteamSale.py:90 | `on on SteamSteam` becomes `on Steam`, which still contains the literal: the deletion is one left-to-right pass |
| Titles.GameName | SteamSale.py:81-95 | the name is `None` exactly when the title could not be obtained, and a cleaned title is never longer than the title |
| Titles.SaleTitleExample | SteamSale.py:82-90 | `Save 50% on Example Game on Steam` becomes `Example Game ` |
| Titles.SaveWithoutPercentKept | SteamSale.py:82-90 | `Save on Foo Bar on Steam` becomes `Save on Foo Bar `, because the pattern needs two spaces around the empty runs |
| Records.LeadingPresent | SteamSale.py:57-61 | the stored values are exactly the lookups before the first failed one, in order; the lookup right after them failed |
| Records.BuildItem | SteamSale.py:54-61 | a record has at most three keys after `game_name`; its name is `None` exactly when the title was missing; it has all four keys exactly when all three price lookups succeed |
| Records.BuildItemFields | SteamSale.py:56-61 | the keys are set lookup by lookup: a missing price gives no price key, a missing original price gives only the price, a missing discount gives price and original price |
| Records.Items | SteamSale.py:49-61 | one record is built per container |
| Records.ItemsSnoc | SteamSale.py:49-61 | one more container adds its record at the end |
| Records.ItemsMembers | SteamSale.py:49-61 | every container's record is among the built records, and every built record is the record of some container |
| Records.DedupSnoc | SteamSale.py:62-66 | one more record is appended unless an equal record is already held |
| Records.DedupNoDuplicates | SteamSale.py:62-64 | the accumulated list never holds two equal records |
| Records.DedupMembers | SteamSale.py:62-66 | a record is in the accumulated list exactly when it was offered |
| Records.DedupDistinct | SteamSale.py:62-64 | when no two offered records are equal, the list is the records in offered order |
| Records.DedupSkipsRepeat | SteamSale.py:65-66 | a record equal to an earlier one changes nothing |
| Records.Dedup | SteamSale.py:62-66 | the accumulated list is never longer than the records offered and holds only offered records |
| Records.Collect | SteamSale.py:46-66 | the list before the sort holds at most one record per container |
| Records.CollectCorrect | SteamSale.py:46-66 | the list before the sort is duplicate-free, holds every container's record, and holds nothing but containers' records |
| Records.DistinctPositions | SteamSale.py:62-64 | two positions of a duplicate-free list hold different records |
| Ordering.LexLe | SteamSale.py:69 | Python's `str` order: a string comes no later than any string it is a prefix of |
| Ordering.LexLeTotal | SteamSale.py:69 | any two names are comparable under Python's string order |
| Ordering.LexLeReflexive | SteamSale.py:69 | every name is not greater than itself |
| Ordering.LexLeAntisymmetric | SteamSale.py:69 | two names each not greater than the other are equal, so sorting by name fixes the order of different names |
| Ordering.LexLeTransitive | SteamSale.py:69 | Python's string order is transitive |
| Ordering.Insert | SteamSale.py:69 | inserting adds exactly the inserted record, and every record stays named |
| Ordering.SortedTail | SteamSale.py:69 | the tail of a sorted list is sorted and its head precedes all of it |
| Ordering.SortedCons | SteamSale.py:69 | a record not greater than any record of a sorted list can go in front of it |
| Ordering.InsertSorted | SteamSale.py:69 | inserting into a sorted list keeps it sorted by name |
| Ordering.WithNameAppend | SteamSale.py:69 | the records of one name in a concatenation are those of its parts, in order |
| Ordering.InsertStable | SteamSale.py:69 | the inserted record goes after every held record of the same name |
| Ordering.InsertStableBehind | SteamSale.py:69 | when the record goes behind the head, the head's records of a name stay in front of it |
| Ordering.InsertStableFront | SteamSale.py:69 | when the record goes in front, no held record has its name, so the order of each name is kept |
| Ordering.SortByName | SteamSale.py:69 | the sort is a permutation of named records |
| Ordering.SortByNameCorrect | SteamSale.py:69 | the result is non-decreasing by name, is a permutation of the input, and keeps the records of each name in input order (stability) |
| Ordering.SortItems | SteamSale.py:69 | the sort fails with `TypeError` exactly when the list has two or more records and one of them has no name; otherwise it is sorted, a permutation and stable |
| Rendering.Fill | SteamSale.py:103 | `n` copies of the fill character |
| Rendering.Header | SteamSale.py:103 | the header is 98 characters longer than the timestamp; `HeaderLayout` states its content |
| Rendering.ItemLine | SteamSale.py:106 | the line of the format string is as long as its four padded fields plus the four characters ` (`, `)` and the line break |
| Rendering.PadRight | SteamSale.py:106 | a left-aligned field is as wide as the larger of the value and the width |
| Rendering.PadLeft | SteamSale.py:106 | a right-aligned field is as wide as the larger of the value and the width |
| Rendering.PadRightShape | SteamSale.py:106 | left alignment keeps the value in front and fills behind it up to the width; a value at least as wide as the field is printed whole |
| Rendering.PadLeftShape | SteamSale.py:106 | right alignment fills in front and ends with the value; a value at least as wide as the field is printed whole |
| Rendering.PadKeepsOut | SteamSale.py:106 | padding adds no character other than the fill |
| Rendering.ItemLineEnds | SteamSale.py:106 | a line is as long as its padded fields plus the four separator characters, starts with the name and ends with the discount and a line break: nothing is cut |
| Rendering.ItemLineColumns | SteamSale.py:106 | when the values fit their widths, the line is 81 characters long with ` (` at columns 65-66, `)` at 74 and the line break at 80, after the name padded with `.` to 58 |
| Rendering.ItemLineCount | SteamSale.py:106 | a line holds exactly one line break when its values hold none |
| Rendering.HeaderLayout | SteamSale.py:103 | the header is `Games on Sale (`, the timestamp, `)`, a line break, exactly 80 `=` and a line break: two lines |
| Rendering.CompleteItems | SteamSale.py:104-105 | the `len(i) == 4` filter: it keeps only complete records of the list, and keeps every complete record of the list |
| Rendering.Render | SteamSale.py:103-107 | rendering fails, with the format `TypeError`, exactly when some complete record has no name |
| Rendering.LineOf | SteamSale.py:105-106 | a record adds no text exactly when it does not have all four keys |
| Rendering.Lines | SteamSale.py:104-106 | the `+=` loop adds no text exactly when no record has all four keys |
| Rendering.RenderFailsAt | SteamSale.py:105-106 | one complete record without a name is enough to make the rendering fail |
| Rendering.LinesSnoc | SteamSale.py:104-106 | one more record adds its own line, or nothing, at the end of the body |
| Rendering.LinesAppend | SteamSale.py:104-106 | the body follows list order: the lines of a concatenation are the lines of its parts |
| Rendering.LinesOne | SteamSale.py:105-106 | a single record contributes its line when it has four keys and nothing otherwise |
| Rendering.LinesOfComplete | SteamSale.py:104-106 | incomplete records contribute nothing: the body equals the body of the complete records alone |
| Rendering.LinesCount | SteamSale.py:104-106 | the body has exactly one line per record with four keys |
| Rendering.RenderShape | SteamSale.py:103-107 | rendering fails exactly when a complete record has no name; otherwise the text is the header followed by the lines of the complete records, and has two more line breaks than there are complete records |
| Scraper.Step | SteamSale.py:34-38 | a failed scrape changes nothing and prints nothing; otherwise the held list becomes the scraped list and something is printed exactly when the two differ; then the change notice is printed, followed by the rendering of the new list when it succeeds, and the exception escapes exactly when the rendering fails |
| Scraper.StepSettles | SteamSale.py:34-38 | a second pass that scrapes the same list prints nothing and changes nothing |
| Scraper.NoDuplicatesPermuted | SteamSale.py:69 | sorting keeps the same records and keeps them free of duplicates |
| Scraper.SteamSale.constructor | SteamSale.py:25-27 | the object holds the given list |
| Scraper.SteamSale.Create | SteamSale.py:25-28 | the object exists exactly when the first scrape succeeds, and it then holds the scraped list; otherwise the sort's `TypeError` escapes |
| Scraper.SteamSale.FillRecord | SteamSale.py:54-61 | filling the dict field by field gives the record of the container |
| Scraper.SteamSale.ParseStore | SteamSale.py:46-70 | the loop computes the sorted accumulated list: it fails only with the sort's `TypeError`, exactly when two or more records include a nameless one; otherwise the result is duplicate-free and sorted by name, holds every container's record and nothing else |
| Scraper.SteamSale.SaleItemsString | SteamSale.py:97-107 | the loop builds the rendered text; it fails with `TypeError` exactly when a complete record has no name |
| Scraper.SteamSale.LoopStep | SteamSale.py:34-38 | one pass of the loop body leaves the held list, the printed strings and the escaping exception that `Step` describes for the scrape's outcome |
| Scraper.SteamSale.Refresh | SteamSale.py:35-38 | the comparison and refresh: a changed list is announced, becomes the held list and is printed, as `Step` describes |

## Left out

- Network and HTML parsing: `request.urlopen`, BeautifulSoup and the `find`/`find_all` lookups (SteamSale.py:47-49, 57-59, 85-89) are foreign library calls. Their outcome is the input sequence of containers.
- A deal link without an `href` attribute raises `KeyError` in `get_game_name` (SteamSale.py:85). That error is not caught and ends the program. The model treats a missing title only as `None`.
- A price element whose `.string` is `None` stores `None` in the dict (SteamSale.py:57-59). The model stores price fields only as strings.
- The exceptions a failed fetch raises are not modelled.
- Logging: the logger setup and every `logger.debug` call have no effect on the result.
- The clock: `datetime.now()` (SteamSale.py:103) is the `now` parameter, already converted to text.
- Progress output: the dots and line breaks printed while scraping (SteamSale.py:44-45, 52-53, 67-68) are console output only.
- `sleep(300)` and the unbounded `while 1` (SteamSale.py:33, 40): only one pass of the loop body is modelled. The statement after the loop (SteamSale.py:41) is unreachable.
- The first print in `loop` (SteamSale.py:32) is `SaleItemsString` on the held list.
- `dump_store_html` (SteamSale.py:109-114) writes a file. The command line handling and the `KeyboardInterrupt` catch (SteamSale.py:117-133) are process plumbing.
- The parent lookup (SteamSale.py:51) is assigned and never used.
- Ordering.SortItems: the sort is written as a stable insertion sort on values, not as an in-place sort. Python's Timsort is a library call, and any stable sort by the same key gives the same list.
