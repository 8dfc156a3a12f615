# Doral business directory spider: phone extraction and dispatch

This project models the core of the Doral business-directory spider
(`doral/doral/spiders/test_spider.py`):

- the directory callback `parse`, which walks the business blocks of the
  directory page with one reused business record, emits a record at once for
  a block without a website (its phone set to `None`), and hands the record
  on to a follow-up request for every block that has a website;
- the follow-up callback `parse_phone`, which joins the site's text nodes with
  single spaces, finds every phone number with a verbose regular expression
  (optional `+1`/`+01` country group, optional parentheses around the area
  code, optional `[\s.-]` separators, and lookarounds that refuse a digit or
  `.` on either side), removes the country group and the characters
  `-.() ` from each match, and stores the set of results as the phone field.

Modules:

- `Wrappers` — the `Option` type (Python's `None`).
- `PhonePattern` — the character classes, the declarative shape of a match
  (`Parts`, rendered by `Render`), a recogniser that reads the pattern left to
  right (`ParseAt`, `MatchAt`), and the normaliser `Normalize` (the `re.sub`).
  `ParseSound` and `ParseComplete` prove that the recogniser accepts exactly
  the renderings of well-formed shapes; because every optional piece of the
  pattern is decided by the next character, this is also what the
  backtracking engine matches from a given position.
- `PhoneScan` — `finditer` as `Scan`, stated for any matcher that advances
  and applied to the phone pattern in `ScanFrom`, the matched texts, the
  de-duplicating set, `' '.join` and the whole extraction `ExtractPhones`.
- `PhoneExamples` — worked inputs: the four formats, de-duplication, the
  lookaround guards, joined text nodes, a surviving tab and the independent
  parentheses.
- `Directory` — the block records, the dispatch loop `ParseDirectory` with
  the reused record, and the follow-up's finished record.

Characters are read as under `re.ASCII`: `\d` is `0`-`9` and `\s` is
`[ \t\n\r\f\v]` (space, tab, newline, carriage return, form feed, vertical
tab).

A behaviour of the code worth knowing: the pattern accepts any `\s`
character as the separator after the area code or after the prefix, but the
normaliser's character class removes only the plain space, so a tab or a
newline in one of those two places stays inside the stored number
(`PhoneExamples.TabSurvives`). Whitespace right after the country `1` is
different: the normaliser's first alternative deletes the whole country
group, separator included (`PhoneExamples.CountryTab`). With plain separators
after the area code and the prefix every stored number is exactly ten digits
(`PhoneScan.PhoneSetPlain`).

A block without a website gets the phone field `None` (`Directory.NoPhone`),
not an empty set.

## Model

| member | source | states |
|---|---|---|
| PhonePattern.ParseSound | doral/doral/spiders/test_spider.py:130-133 | whatever the recogniser accepts from `i` is a well-formed shape (optional country group, optional `(`, three digits, optional `)`, optional separator, three digits, optional separator, four digits) whose rendering is exactly the consumed text |
| PhonePattern.ParseComplete | doral/doral/spiders/test_spider.py:130-133 | every well-formed shape written at `i` is recognised there, with that shape and that end, including either parenthesis without the other |
| PhonePattern.MatchAt | doral/doral/spiders/test_spider.py:129-134 | a match is at least ten characters long, lies inside the text, and has no digit or `.` just before or just after it |
| PhonePattern.MatchAtIff | doral/doral/spiders/test_spider.py:127-136 | the pattern matches from `i` to `j` if and only if neither end touches a digit or `.` and the text between is a well-formed shape; so the end of a match is unique |
| PhonePattern.MatchAtShape | doral/doral/spiders/test_spider.py:127-136 | the text of any match is the rendering of a well-formed shape |
| PhonePattern.AfterDigit | doral/doral/spiders/test_spider.py:129 | no match starts right after a digit |
| PhonePattern.ParseNeedsStart | doral/doral/spiders/test_spider.py:130-131 | no match starts at a character other than `+`, `(` or a digit |
| PhonePattern.LocalStart | doral/doral/spiders/test_spider.py:131 | the part after the country group starts with `(` or a digit |
| PhonePattern.CountryComplete | doral/doral/spiders/test_spider.py:130 | the country group `+`, optional `0`, `1`, optional separator is read whole, taking the separator whenever one follows |
| PhonePattern.Normalize | doral/doral/spiders/test_spider.py:145 | normalising never lengthens a text |
| PhonePattern.NormalizeStrips | doral/doral/spiders/test_spider.py:145 | no `-`, `.`, `(`, `)` or space survives normalisation |
| PhonePattern.NormalizeNoPlus | doral/doral/spiders/test_spider.py:145 | on a text without `+`, normalising only deletes the characters `-.() ` and keeps all others in order |
| PhonePattern.KeptAppend | doral/doral/spiders/test_spider.py:145 | deleting `-.() ` distributes over concatenation |
| PhonePattern.NormalizeDropsCountry | doral/doral/spiders/test_spider.py:145 | the country group of a match is deleted whole: a match normalises as its part without the country group |
| PhonePattern.NormalizeRender | doral/doral/spiders/test_spider.py:145 | a match normalises to its area digits, its first separator unless it is `-`, `.` or space, its prefix digits, its second separator likewise, and its line digits |
| PhonePattern.NormalizePlain | doral/doral/spiders/test_spider.py:145 | a match whose separators are space, `.` or `-` normalises to exactly its ten digits |
| PhoneScan.PatternAdvancing | doral/doral/spiders/test_spider.py:127-136 | every match of the phone pattern is non-empty and ends inside the text, which is what the scan needs to advance |
| PhoneScan.Scan | doral/doral/spiders/test_spider.py:139 | the reported matches lie inside the text, each after the start position, in order and without overlap |
| PhoneScan.ScanSound | doral/doral/spiders/test_spider.py:139 | every reported span is the match the matcher gives at its start |
| PhoneScan.ScanComplete | doral/doral/spiders/test_spider.py:139 | every position where the matcher finds a match lies inside some reported span |
| PhoneScan.Texts | doral/doral/spiders/test_spider.py:142 | the list of matched texts has one entry per match, each the text its span covers |
| PhoneScan.NormalSet | doral/doral/spiders/test_spider.py:145 | the normal form of every matched text is in the stored set |
| PhoneScan.NormalSetWitness | doral/doral/spiders/test_spider.py:145 | every element of the stored set is the normal form of some matched text |
| PhoneScan.PhoneSetWitness | doral/doral/spiders/test_spider.py:139-145 | every stored number is the normal form of the text of some reported match |
| PhoneScan.MatchesAreShapes | doral/doral/spiders/test_spider.py:139-142 | every matched text is a well-formed shape with no digit or `.` on either side |
| PhoneScan.PhoneSetShapes | doral/doral/spiders/test_spider.py:139-145 | every stored number is the normal form of a well-formed shape |
| PhoneScan.PhoneSetEmptyIff | doral/doral/spiders/test_spider.py:139-145 | the stored set is empty if and only if the pattern matches nowhere in the content |
| PhoneScan.PhoneSetPlain | doral/doral/spiders/test_spider.py:139-145 | when the only whitespace in the content is the plain space, every stored number is ten digits |
| PhoneScan.JoinAppend | doral/doral/spiders/test_spider.py:124 | joining two non-empty runs of text nodes puts exactly one space between their joins |
| PhoneScan.MatchAtRender | doral/doral/spiders/test_spider.py:127-136 | a well-formed shape with clear surroundings is matched from its first to its last character |
| PhoneScan.WholeMatch | doral/doral/spiders/test_spider.py:139-145 | content that is one match is reported as one span and stores just its normal form |
| PhoneScan.TwoSpans | doral/doral/spiders/test_spider.py:139 | after a match the search resumes at its end: a match, a position with no match, and a match give two spans |
| PhoneScan.MatchesTwo | doral/doral/spiders/test_spider.py:142-145 | two reported spans store the set of their two normal forms |
| PhoneExamples.PlainWhole | doral/doral/spiders/test_spider.py:139-145 | content that is one match with plain separators stores its ten digits |
| PhoneExamples.DottedFormat | doral/doral/spiders/test_spider.py:127-145 | `305.555.1234` stores `3055551234` |
| PhoneExamples.CountryFormat | doral/doral/spiders/test_spider.py:127-145 | `+1 305-555-1234` stores `3055551234`, the country group removed |
| PhoneExamples.BareFormat | doral/doral/spiders/test_spider.py:127-145 | `3055551234` stores `3055551234` |
| PhoneExamples.ParenFormat | doral/doral/spiders/test_spider.py:127-145 | `(305) 555-1234` stores `3055551234` |
| PhoneExamples.SpacedFormat | doral/doral/spiders/test_spider.py:127-145 | `305 555-1234` stores `3055551234` |
| PhoneExamples.TwiceScan | doral/doral/spiders/test_spider.py:139-142 | two spellings of one number a space apart are both reported, in order |
| PhoneExamples.Dedup | doral/doral/spiders/test_spider.py:145 | two spellings of one number store a single element |
| PhoneExamples.ElevenNoMatch | doral/doral/spiders/test_spider.py:129-134 | `13055551234` has no match at any position |
| PhoneExamples.ElevenDigits | doral/doral/spiders/test_spider.py:129-145 | `13055551234` stores the empty set |
| PhoneExamples.OrderNoMatch | doral/doral/spiders/test_spider.py:129-134 | `Order #13055551234567` has no match at any position |
| PhoneExamples.OrderNumber | doral/doral/spiders/test_spider.py:129-145 | `Order #13055551234567` stores the empty set |
| PhoneExamples.SplitNodes | doral/doral/spiders/test_spider.py:124-145 | the text nodes `305` and `555-1234` join into one number, `3055551234` |
| PhoneExamples.CountryTab | doral/doral/spiders/test_spider.py:130-145 | `+1<tab>305-555-1234` stores `3055551234`: the tab after the country `1` goes with the country group |
| PhoneExamples.TabSurvives | doral/doral/spiders/test_spider.py:131-145 | `305<tab>555-1234` matches, and the tab stays in the stored number |
| PhoneExamples.OpenParenOnly | doral/doral/spiders/test_spider.py:131 | `(305 555-1234`, an opening parenthesis alone, matches |
| PhoneExamples.CloseParenOnly | doral/doral/spiders/test_spider.py:131 | `305) 555-1234`, a closing parenthesis alone, matches |
| Directory.ParseDirectory | doral/doral/spiders/test_spider.py:73-104 | one output per block, in block order; a block without a website yields its own four fields with the phone `None`, any other block yields a follow-up for its website carrying its own four fields and the phone field left over from earlier blocks |
| Directory.CarriedPhoneIff | doral/doral/spiders/test_spider.py:73-104 | the phone field carried by a follow-up is `None` exactly when an earlier block had no website, and unassigned otherwise |
| Directory.FollowUpRecord | doral/doral/spiders/test_spider.py:121-148 | whatever phone value the follow-up carries, the record it finally yields is the block's four fields with the phone numbers found on the site |

## Left out

- Logging, the spider's name and settings, and `start_requests` (lines 12-66): configuration and I/O.
- Closing the browser pages and the error callback `errback` (lines 69-70, 106-118): browser resource handling with no effect on the records.
- The XPath and CSS selectors (lines 75-81, 124): a block is given as the four values its selectors read, and a site as its list of text nodes.
- The `ValueError` raised by `response.follow` for a URL it cannot handle (lines 100-101): the code only logs it, so such a block yields nothing, and which URLs fail is decided by code that is not part of this model; every website is followed.
- A follow-up whose download fails yields no record: the error callback only logs it, so that business is missing from the output, and the model has no output for that case.
- Sharing of the one record object between the loop and the pending follow-ups: the loop keeps changing the record after handing it on, so a follow-up that runs later may see a later block's fields. The model passes the record by value at the moment it is handed on.
- Unicode `\d` and `\s`: the model reads `\d` as `0`-`9` and `\s` as `re.ASCII`'s `[ \t\n\r\f\v]`. Python's default `\s` on text also matches the ASCII characters `\x1c`-`\x1f` and non-ASCII whitespace, and its `\d` matches non-ASCII digits; none of these is a separator or a digit here.
- Compilation of the pattern and the verbose-mode syntax: the compiled pattern is modelled directly.
