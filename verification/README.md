# IMDB-Fetcher link parser — a Dafny model

IMDB-Fetcher is a small Dash web page. The user pastes a block of text copied from a
file-sharing site and picks "HubCloud" or "GDTot" from a dropdown. The page then lists
every file it recognises: its name, its size and its download link. It also lists the
IMDB codes typed as a comma-separated list in a second box.

This project models the logic behind that page:

- **Patterns** (`patterns.dfy`) models the two regular expressions of `parse_hubcloud`
  and `parse_gdtot`, matched at one position.
  - It uses no regex engine. A match is a `Split`: where the name starts, and where each
    greedy part ends.
  - Validity is stated layer by layer (`LinkOk`, `FracOk`, `IntOk`, `BodyOk`, `SplitOk`).
  - The backtracking search has one function per variable part. Greedy parts try the
    longest run first; hubcloud's lazy first group tries the shortest first.
  - `SplitAt` is proved to return the first valid split in Python's backtracking order.
  - Both patterns are instances of one `Shape`: an optional bracketed opening, a
    separator, the fixed text after the size digits, the URL and the class of the final
    run.
- **FindAll** (`findall.dfy`) models `re.findall`.
  - `Scan` takes the leftmost match and resumes where it stopped.
  - `FindAllFrom` is an independent, declarative description of `re.findall`.
  - The model proves that the scan meets that description, and that the description
    admits exactly one list.
- **Parsers** (`parsers.dfy`) turns each match into a `Record` of its name, size and link
  groups, proves the shape of every field, and defines `ParseHubcloud` and `ParseGdtot`.
- **ImdbCodes** (`codes.dfy`) models the list
  `[code.strip() for code in imdb_text.split(",") if code.strip()]` with Python's `split`
  and `strip` semantics.
- **App** (`app.dfy`) models the callback `update_output`: when it shows nothing, which
  parser the dropdown value selects, the "No links found" message, and the IMDB list.

Python's `\s`, `\d` and `\w` (and `str.strip`, which uses the same whitespace test as
`\s`) are decided by Unicode tables. Here they are the three fields of `CharClasses`,
left abstract, so every result holds whatever the tables say. `.` is "anything but a
line feed", as in a pattern compiled without DOTALL.

The hubcloud pattern contains the literal `ðŸ’¾`: the four characters U+00F0 U+0178
U+2019 U+00BE. That is the floppy-disk emoji's UTF-8 bytes read back as Windows-1252.
The model keeps those four characters, as the source does. `Parsers.HubcloudNeedsMarker`
shows the consequence: a text that carries the emoji itself (U+1F4BE) and no U+00F0
gives no hubcloud record.

The URLs in both patterns are written with unescaped dots. Each dot is therefore the
wildcard `.`, and the model treats it so (`Template`, `TemplateMatches`).

The size group is `(\d+\.\d+\sGB)`, so `GB` is part of the captured size text.

## Model

| member | source | states |
|---|---|---|
| Text.RunEnd | app.py:11 | a greedy `\w+`/`\d+`/`.+` run from `i` ends at the first character outside the class, and no longer run of class characters starts at `i` |
| Patterns.ShapeOf | app.py:11-17 | the hubcloud pattern opens with `[`, has separator `\s\[`, the hubcloud URL and a final `\w+` run; the gdtot pattern has no opening, separator `\s-\s`, the gdtot URL and a final `\d+` run; both leads start with the `\sGB` that ends the size group |
| Patterns.LinkEnd | app.py:11-17 | the final link run (`\w+` for hubcloud, `\d+` for gdtot) after the fixed tail is valid, stops before a non-class character, and is at least as long as every valid choice |
| Patterns.FracFirst | app.py:11-17 | the greedy fraction digits `\.\d+` return a valid continuation that backtracking tries before every other valid one |
| Patterns.IntFirst | app.py:11-17 | the greedy integer digits after the separator (`\s-\s` or `\s\[`) return the first valid continuation in backtracking order, or nothing when none exists |
| Patterns.BodyFirst | app.py:11-17 | the greedy name group `(.+)` with everything after it: the returned ends are valid and no later in backtracking order than any valid ends |
| Patterns.LazySearch | app.py:11 | hubcloud's lazy `\[(.*?)\]\s` grows its group one non-line-feed character at a time; the result is valid and tried no later than any valid split whose group is at least as long |
| Patterns.SplitAt | app.py:11-12 | trying a pattern at one position gives a valid split exactly when one exists, and it is the first one in Python's backtracking order |
| FindAll.MatchAt | app.py:12 | a match tried at `s` starts at `s`, is non-empty and ends inside the text |
| FindAll.Scan | app.py:12 | `re.findall`'s scan lists matches inside the text, each starting no earlier than where the previous one stopped |
| FindAll.MatchAtIsFirstMatch | app.py:12 | the match found at a position is the one the declarative description picks, and one is found exactly when some match starts there |
| FindAll.ScanIsFindAll | app.py:12 | the scan's result meets the declarative description of `re.findall` (leftmost match, resume at its end, nothing in the gaps) |
| FindAll.FindAllUnique | app.py:12 | at most one list meets the declarative description of `re.findall` |
| FindAll.FirstMatchUnique | app.py:12 | at most one match is reported at a given start |
| FindAll.FindAllMatchesAreFirst | app.py:12 | every listed match is the match Python reports at its own start |
| FindAll.FindAllInOrder | app.py:12 | the listed matches are left to right and pairwise non-overlapping |
| FindAll.ScanEmptyIffNoMatch | app.py:12 | `re.findall` returns an empty list exactly when no match starts anywhere |
| FindAll.FirstMatchBounds | app.py:12 | a reported match starts where it was tried, takes at least one character and ends inside the text |
| FindAll.SplitPlaced | app.py:11-19 | the group spans of a valid split (numbered by `FoundOf`: hubcloud groups 2, 3 and 4, gdtot groups 1, 2 and 3, as name, size and link) lie in the text in group order |
| FindAll.ScanWellPlaced | app.py:12-13 | every match the scan lists has its group spans in order inside the text |
| Parsers.SizeShaped | app.py:11-17 | the size group is digits, a dot, digits, one whitespace character and `GB` |
| Parsers.LinkShaped | app.py:11-17 | the link group is the URL, whose unescaped dots match any character but a line feed, followed by one or more link-class characters |
| Parsers.SplitShaped | app.py:17-19 | the record of any valid match has a non-empty, line-feed-free name, a size text and a link text |
| Parsers.FirstMatchShaped | app.py:11-13 | the record of a reported match has the shape its pattern prescribes |
| Parsers.FirstMatchLinkMaximal | app.py:11 | the reported link is not followed by another link-class character, so a following character would have been taken |
| Parsers.FirstMatchOpening | app.py:11-13 | a hubcloud match opens with `[`, a line-feed-free first group that is not kept, `]` and one whitespace character before the name; a gdtot name starts its match |
| Parsers.FindAllLinksMaximal | app.py:12 | every listed match's link takes the whole run of link-class characters |
| Parsers.FindAllOpenings | app.py:13 | every listed hubcloud match drops its first group, and every gdtot name starts its match |
| Parsers.ParseWith | app.py:12-13 | the list of records is empty exactly when the pattern matches nowhere, and every record has the shape its pattern prescribes |
| Parsers.ParseIsFindAll | app.py:12-13 | the records are those of the one list of matches that the declarative description of `re.findall` gives, in that order |
| Parsers.ParsedInOrder | app.py:12-13 | the records come, in order, from spans of the input that lie left to right without overlapping |
| Parsers.ParsedFieldsInText | app.py:13 | every name, size and link of a record is a piece of the input text |
| Parsers.ParseHubcloud | app.py:9-13 | hubcloud records: a name, a `\d+\.\d+\sGB` size and a link of `https://hubcloud.art/video/` plus a `\w+` run; empty exactly when nothing matches |
| Parsers.ParseGdtot | app.py:15-19 | gdtot records: a name, a `\d+\.\d+\sGB` size and a link of `https://new7.gdtot.dad/file/` plus a `\d+` run; empty exactly when nothing matches |
| Parsers.HubcloudMatchHasMarker | app.py:11 | every hubcloud match contains the four-character marker exactly as the pattern spells it |
| Parsers.HubcloudNeedsMarker | app.py:11-13 | text without U+00F0, such as text carrying the real emoji, has no hubcloud match anywhere, so the hubcloud parser returns an empty list |
| ImdbCodes.SplitOn | app.py:102 | `str.split(",")` gives pieces without commas, at least one |
| ImdbCodes.SplitCount | app.py:102 | `str.split(",")` gives one piece more than there are commas |
| ImdbCodes.JoinSplit | app.py:102 | joining the pieces with commas gives back the text |
| ImdbCodes.SplitJoin | app.py:102 | splitting a join of a non-empty list of comma-free pieces gives back the pieces |
| ImdbCodes.SplitOfPiece | app.py:102 | a comma-free text splits into itself alone |
| ImdbCodes.StripBounds | app.py:102 | `strip()` cuts off leading and trailing whitespace only, and what is left starts and ends with a non-whitespace character |
| ImdbCodes.Strip | app.py:102 | the stripped text is no longer than the text and has no whitespace at either end |
| ImdbCodes.StripUnique | app.py:102 | any cut that meets the description of `strip()` leaves the same text |
| ImdbCodes.StripEmptyIffBlank | app.py:102 | `code.strip()` is empty, so the code is dropped, exactly when the piece is all whitespace |
| ImdbCodes.StripIdempotent | app.py:102 | stripping twice strips nothing more |
| ImdbCodes.StripInside | app.py:102 | stripping adds no character, so a comma-free piece stays comma-free |
| ImdbCodes.KeptIndices | app.py:102 | the kept codes are exactly the non-empty stripped pieces, in the order the pieces appear |
| ImdbCodes.SelectedCodesShape | app.py:102 | selected codes are non-empty, comma-free and have no whitespace at either end |
| ImdbCodes.Codes | app.py:101-102 | the IMDB codes (`KeepCodes` applied to the comma pieces, modelling the comprehension's `if code.strip()` filter) are non-empty, comma-free and unpadded, number at most commas + 1, and are the non-empty stripped pieces in order |
| ImdbCodes.CodesOfOnePiece | app.py:102 | a comma-free text gives its stripped self, or nothing when it is blank |
| App.ParsedData | app.py:76-81 | `"hubcloud"` runs the hubcloud parser, `"gdtot"` the gdtot parser, and any other value (or none) gives an empty list |
| App.UpdateOutput | app.py:72-105 | no click or no pasted text shows nothing in both areas; otherwise the records or the no-links message, and the IMDB list exactly when IMDB text was typed |
| App.NoLinksMessage | app.py:84-97 | after a click with non-empty pasted text, the no-links message appears exactly when the selected parser finds no match, or when no parser is selected |
| App.OutputsIndependent | app.py:72-105 | after a click with non-empty pasted text, the links area does not depend on the IMDB text, and the IMDB area does not depend on the dropdown or on which non-empty text was pasted |

## Left out

- The Dash application itself: creating the app, the page layout, the callback wiring
  and running the server (app.py:1-6, 21-71, 107-109). The callback's inputs become the
  parameters of `App.UpdateOutput`.
- HTML rendering (app.py:84-95, 103). `html.Ul`/`html.Li`/`html.A` elements become the
  data they display: `LinkList(records)` and `CodeList(codes)`.
- Unicode character tables. `\s`, `\d`, `\w` and `str.strip`'s whitespace test are the
  abstract fields of `CharClasses`.
- The regular-expression engine. It is replaced by the search functions of `Patterns`,
  whose results are proved to be the matches Python's backtracking reports. The
  engine's internal optimisations do not change which match is reported.
- Concrete example runs. The contracts hold for every input; no particular text is
  worked through in the model.
- No validation of links or IMDB codes. The source does none either.
