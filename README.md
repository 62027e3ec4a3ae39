# Threadwalker pipeline core in Dafny

Threadwalker turns an exported chat archive into per-author lemma frequency tables. The pipeline has five stages:

1. `parse_messages.py` walks the export folder. It reads every `.html` page of every dialog folder, decodes it, and extracts one record per message: dialog id, sender, timestamp and text. The timestamp is in ISO form when the date text normalises; otherwise it is the raw date text, and it is empty when the header has no date.
2. `add_author_role.py` labels every message `author_a`, `author_b` or `other`. The two sender names come from the command line, then from `config.json`, and otherwise from the two most frequent senders.
3. `split_by_author.py` writes the rows of each author to its own table.
4. `lemmatize_author_a.py` (a regex tokenizer plus pymorphy2) and `lemmatize_author_b_advanced.py` (razdel and natasha, with pymorphy2 as fallback) reduce each author's texts to filtered lemmas.
5. Both lemmatisers then count the lemmas into a frequency table sorted by count.

This project models the decision logic of those stages and proves what each one promises. All library calls are parameters or abstract inputs: BeautifulSoup, chardet, the decoders, razdel, natasha and pymorphy2.

Files, one module each:

- `base.dfy`: Option/Result, occurrence counts, filters, subsequences, `" ".join`, and a stable insertion sort standing in for library sorts.
- `text.dfy`: `str.isspace`, `str.strip`, `str.strip(ch)`, `str.lower`, `str.endswith`, and string order.
- `datetime.dfy`: `normalize_datetime`.
  - The regex search is an explicit scanner.
  - A declarative pattern with soundness, completeness and leftmost-match lemmas backs the scanner.
  - It also holds the month table, the calendar check, and ISO rendering with its round trip.
- `datetime_cases.dfy`: worked instances. One is `"5 мар 2021 в 14:05:30"` ↦ `"2021-03-05T14:05:30"`; others cover leap years and out-of-range fields.
- `message_cases.dfy`: a worked message record, from the header `"Иван Иванов, 5 мар 2021 в 14:05:30"` to its sender, ISO timestamp and text.
- `encoding.dfy`: the encoding choice and fallback of `decode_file_content`.
- `messages.dfy`: `extract_message_info` over an abstract message div, and the traversal and tagging loop of `main`.
- `roles.dfy`: `classify_sender`, the flag/config merge, `auto_detect_roles` and the labelling in `main`.
- `split.dfy`: the column guard and the two role filters.
- `lemmatize.dfy`: the shared stopword/POS filter.
  - The `\b[а-яёА-ЯЁ]{2,}\b` tokenizer.
  - `clean_and_lemmatize`, and `extract_lemmas` with the tagger-to-analyzer fallback.
  - The `lemmas` column.
- `frequency.dfy`: flattening, the `Counter`, and the sort by descending count.

Where the source loops and appends, the model is a method with a loop. Each such method is proved equal to a specification function, and the lemmas state the source's promises about that function.

Behaviour modelled as the code has it, which a reader might not expect:

- The folder walk visits dialog folders at every depth. The script's docstring (scripts/parse_messages.py:5 and 8) describes one folder per dialog, laid out as `<dialog_id>/*.html`, but `os.walk` does not stop at one level, and the model follows the code: every folder other than the root is a dialog. The dialog id is the relative path with `/` stripped from both ends.
- The message text is the join of the direct child divs after the first, whatever that first div is (scripts/parse_messages.py:88-90). The header is looked up by class anywhere inside the message (line 73), so its text appears in the message text exactly when it lies inside one of the direct child divs after the first; nested in the first child div, or under a direct child that is not a div, it is left out. The model follows the code.
- The month key is the first three lowered letters of the month word. The genitive `"мая"` gives the key `"мая"`, which is not in the table (the table has `"май"`), so such dates stay unnormalised (`DatetimeCases.MonthCases`).
- Auto-detection discards a single label given on the command line. Both labels are replaced when either one is missing.

## Model

| member | source | states |
|---|---|---|
| Datetime.MonthNumber | scripts/parse_messages.py:26-43 | the month is found exactly when the first three lowered letters of the word are one of the twelve keys, and it is then that key's number, 1 to 12 |
| Datetime.MonthKey | scripts/parse_messages.py:40 | the key is the lowered word cut to three characters (all of it when shorter) |
| Datetime.Search | scripts/parse_messages.py:34 | the search reports the first position where the anchored scan matches, and no match when it matches nowhere |
| Datetime.ScanAtSound | scripts/parse_messages.py:34 | whatever the anchored scan reports is a match of the pattern: 1–2 digits, whitespace, Cyrillic letters, whitespace, 4 digits, then a time after characters other than newline |
| Datetime.ScanAtComplete | scripts/parse_messages.py:34 | whenever the pattern matches at a position, the scan finds the same day, month and year spans and a time starting no later (lazy `.*?`) |
| Datetime.SearchLeftmost | scripts/parse_messages.py:34 | if the pattern matches anywhere, the search succeeds no later than that, and the pattern matches nowhere before what it reports |
| Datetime.FindClockComplete | scripts/parse_messages.py:34 | the lazy search for the time finds one no later than any readable time reachable without crossing a newline |
| Datetime.MatchClockComplete | scripts/parse_messages.py:34 | a time that can be read at a position is read by the clock matcher |
| Datetime.MatchClock | scripts/parse_messages.py:34 | the time `\d{1,2}:\d{1,2}:\d{1,2}` read greedily at a position; its three fields lie in order inside the text |
| Datetime.FindClock | scripts/parse_messages.py:34 | `.*?` before the time: the first position on where a time can be read, not crossing a newline; that time is the one read there |
| Datetime.ScanAt | scripts/parse_messages.py:34 | the anchored scan: the date part, then the lazy search for the time after the year |
| Datetime.DaysInMonth | scripts/parse_messages.py:45 | month lengths are 28 to 31, and 29 exactly for February of a leap year |
| Datetime.ValidDateTime | scripts/parse_messages.py:45 | the fields `datetime.datetime` accepts: year 1 to 9999, month 1 to 12, a day of that month, hour, minute and second in range |
| Datetime.IsoFormat | scripts/parse_messages.py:46 | `isoformat()` of a valid datetime is a `YYYY-MM-DDTHH:MM:SS` string |
| Datetime.Convert | scripts/parse_messages.py:37-48 | the conversion of a match: the input when the month is unknown or the fields are no valid datetime, otherwise an ISO timestamp |
| Datetime.IsoRoundTrip | scripts/parse_messages.py:46 | the ISO rendering of a valid date and time parses back to the same six fields |
| Datetime.DecimalValue | scripts/parse_messages.py:38-39 | `int()` of a string of decimal digits: a value below 10 to the power of the number of digits |
| Datetime.FieldsOf | scripts/parse_messages.py:36-44 | the six numbers of a match before validation: the looked-up month, a year of four digits (below 10000), and day, hour, minute and second of one or two digits (below 100) |
| Datetime.NormalizeDatetime | scripts/parse_messages.py:33-49 | the result is the input unchanged or a `YYYY-MM-DDTHH:MM:SS` string |
| Datetime.NormalizeNoMatch | scripts/parse_messages.py:49 | when the pattern matches nowhere the input comes back unchanged |
| Datetime.NormalizeUnknownMonth | scripts/parse_messages.py:40-43 | when the first match's month word is not in the table the input comes back unchanged |
| Datetime.NormalizeCalendar | scripts/parse_messages.py:37-48 | with a known month, the result is the ISO form of the matched fields when they are a real date and time, and the input unchanged otherwise |
| Datetime.NoSpaceNoMatch | scripts/parse_messages.py:34 | a string without whitespace never matches the pattern |
| Datetime.NormalizeIdempotent | scripts/parse_messages.py:33-49 | normalising twice gives the same as normalising once |
| DatetimeCases.SampleNormalized | scripts/parse_messages.py:33-49 | `"5 мар 2021 в 14:05:30"` normalises to `"2021-03-05T14:05:30"` |
| DatetimeCases.CalendarCases | scripts/parse_messages.py:45-48 | Feb 29 is valid in 2020 and 2000 and invalid in 2021 and 1900; Apr 31, year 0, hour 24, minute 60 and second 60 are invalid |
| DatetimeCases.MonthCases | scripts/parse_messages.py:26-43 | "Марта" is 3, "ДЕКАБРЯ" is 12, "май" is 5, while "мая" and "ма" are unknown |
| Encoding.ChosenEncoding | scripts/parse_messages.py:55-59 | the detected encoding (default "utf-8" when the key is missing) is used exactly when it is non-empty and the confidence (default 0) is at least 0.7; otherwise windows-1251 |
| Encoding.ChosenEncodingDefaults | scripts/parse_messages.py:56-58 | missing keys, a None encoding and the 0.7 boundary on concrete detector results |
| Encoding.DecodedContent | scripts/parse_messages.py:60-63 | the decoded page: the decoder's result for the chosen encoding, or the replacing windows-1251 decode when that fails |
| Encoding.DecodeFileContent | scripts/parse_messages.py:52-64 | the page is decoded with the chosen encoding when that succeeds, and otherwise with windows-1251 with replacement, so a text is always returned |
| Messages.SplitHeader | scripts/parse_messages.py:82-84 | a header without a comma is all sender, with an empty date text |
| Messages.SplitHeaderFirstComma | scripts/parse_messages.py:78-81 | with a comma, the sender is the stripped text before the first comma and the date text is the stripped rest |
| Messages.SplitHeaderCommas | scripts/parse_messages.py:78-81 | the sender never contains a comma, and every comma after the first stays in the date text |
| Messages.Body | scripts/parse_messages.py:88-94 | the text is never empty; it is replaced by the placeholder when there is at most one child div or the only later one is empty, and is otherwise the space-join of the child divs after the first (which is itself the placeholder text when that one later div reads `[attachment]`) |
| Messages.MessageOf | scripts/parse_messages.py:77-100 | the sender is the header's sender; the date field is empty exactly when the header has no date text, and otherwise it is `normalize_datetime` of that text (so the text itself or an ISO timestamp); the text is the body |
| MessageCases.SampleSplit | scripts/parse_messages.py:78-81 | the header `"Иван Иванов, 5 мар 2021 в 14:05:30"` splits into the sender `"Иван Иванов"` and the date text `"5 мар 2021 в 14:05:30"` |
| MessageCases.SampleRecord | scripts/parse_messages.py:77-100 | a div with that header and the text `"Привет"` in its second child div gives the record (`"Иван Иванов"`, `"2021-03-05T14:05:30"`, `"Привет"`) |
| Messages.Extracted | scripts/parse_messages.py:72-100 | one record per message div with a header, in document order, and none for a div without one |
| Messages.ExtractMessageInfo | scripts/parse_messages.py:67-101 | the loop builds exactly the records of the headed divs in order |
| Messages.HtmlFilesSpec | scripts/parse_messages.py:111-113 | the files read from a folder are sorted by name, all end in `.html`, and include each `.html` file as often as it occurs and no other file |
| Messages.HtmlFiles | scripts/parse_messages.py:111-113 | the files of a folder in name order, `.html` only |
| Messages.FolderRecords | scripts/parse_messages.py:108-119 | the root contributes nothing; another folder the records of its `.html` files in name order, tagged with its id |
| Messages.WalkRecords | scripts/parse_messages.py:107-119 | the records of the folders of the walk, in walk order |
| Messages.ParseAll | scripts/parse_messages.py:104-119 | the records are those of each folder of the walk, concatenated in walk order |
| Messages.ParseFolder | scripts/parse_messages.py:108-110 | the export root contributes no records, and any other folder contributes the records of its files |
| Messages.ParseFiles | scripts/parse_messages.py:111-119 | the `.html` files of a folder are read in the given order and their records concatenated |
| Messages.TagAll | scripts/parse_messages.py:117-118 | every message of a page is tagged with the folder's dialog id, its fields otherwise unchanged |
| Messages.WalkRecordsTagged | scripts/parse_messages.py:107-119 | no record is tagged with the root ".", every record's dialog id is that of a folder of the walk, and no record has an empty text |
| Text.Strip | scripts/parse_messages.py:80-81 | the result is a slice of the input with no whitespace at either end |
| Text.StripSplit | scripts/parse_messages.py:80-81 | the input is whitespace, then the stripped text, then whitespace |
| Text.StripUnchanged | scripts/parse_messages.py:80-81 | a text with no whitespace at either end is unchanged by `strip()` |
| Text.StripCount | scripts/parse_messages.py:80-81 | stripping keeps every non-whitespace character, as often as it occurs |
| Text.StripChar | scripts/parse_messages.py:108 | the dialog id neither starts nor ends with `/` and is no longer than the path |
| Text.StripCharSlice | scripts/parse_messages.py:108 | the dialog id is a slice of the path, and everything cut off before and after it is `/` |
| Text.LowerChar | scripts/add_author_role.py:46-49 | `str.lower` on one character: no upper-case letter is left |
| Text.Lower | scripts/parse_messages.py:40 | `str.lower` as the map of `LowerChar` over the text; what it promises is stated by `LowerChar` and `LowerIdempotent` (also scripts/add_author_role.py lines 46-49 and scripts/lemmatize_author_a.py line 26) |
| Text.LowerIdempotent | scripts/add_author_role.py:46-49 | lowering an already lowered text changes nothing, so comparing lowered names is insensitive to prior lowering |
| Text.LexLeTotal | scripts/parse_messages.py:111 | the order `sorted` uses on file names, by code point with a prefix first, relates every two names |
| Text.LexLeAntisymmetric | scripts/parse_messages.py:111 | two names each ordered before the other are equal |
| Text.LexLeTransitive | scripts/parse_messages.py:111 | the file-name order is transitive |
| Text.LexLePrefix | scripts/parse_messages.py:111 | a name sorts before every name it is a prefix of |
| Base.JoinSpace | scripts/lemmatize_author_b_advanced.py:36 | `" ".join`: empty exactly when there are no parts or a single empty part (also scripts/parse_messages.py line 90) |
| Messages.DialogId | scripts/parse_messages.py:108 | the dialog id: the relative path with `/` stripped from both ends, as `Text.StripChar` and `Text.StripCharSlice` state |
| Roles.ClassifySender | scripts/add_author_role.py:45-52 | the role is always one of the three; `author_a` exactly when the sender equals the first key up to case, `author_b` exactly when it equals only the second |
| Roles.ClassifyCaseInsensitive | scripts/add_author_role.py:46-49 | lowering the sender or the keys changes no role |
| Roles.ClassifyExact | scripts/add_author_role.py:46-49 | a matching sender has exactly the key's length, so a key inside a longer name does not match |
| Roles.ClassifyEqualKeys | scripts/add_author_role.py:47-50 | when the keys are equal up to case no sender is ever `author_b` |
| Roles.MergeLabels | scripts/add_author_role.py:33-40 | the config is consulted exactly when a command-line value is missing or empty; a non-empty command-line value is kept, and only a missing one is taken from the config |
| Roles.AutoDetect | scripts/add_author_role.py:55-64 | failure carries exit status 1 |
| Roles.AutoDetectFails | scripts/add_author_role.py:56-59 | auto-detection fails exactly when there are not two different senders |
| Roles.AutoDetectTopTwo | scripts/add_author_role.py:56-60 | on success the two labels are different senders of the data; the first is at least as frequent as every sender, and the second as every sender other than the first |
| Roles.MostFrequent | scripts/add_author_role.py:56-60 | the position of a candidate sender whose count is at least that of every candidate |
| Roles.LabelRows | scripts/add_author_role.py:76 | every row gets the role of its sender, and the row count is unchanged |
| Roles.AssignRoles | scripts/add_author_role.py:67-85 | the stage fails exactly when auto-detection is needed and fails; the saved labels are those the rows were classified with, i.e. the merged ones when both are present and otherwise both auto-detected; every row is kept, in order, with its role |
| Roles.UsedLabels | scripts/add_author_role.py:72-73 | the merged labels when both are non-empty, otherwise the two auto-detected ones |
| Roles.SingleLabelDiscarded | scripts/add_author_role.py:72-73 | a single label with nothing from the config is replaced, with the other label, by auto-detection |
| Split.SplitByAuthor | scripts/split_by_author.py:14-19 | without the role column nothing is written; otherwise the two outputs together are no longer than the input |
| Split.SplitExact | scripts/split_by_author.py:18-19 | each output holds exactly the input rows with its role, each as often as in the input and in input order; no row is in both, and an `other` row is in neither |
| Split.DisjointFilterLength | scripts/split_by_author.py:18-19 | two filters whose conditions exclude each other keep at most the input's length between them |
| Split.SplitAfterRoles | scripts/split_by_author.py:18-19 | after the role stage, a row is in the first output exactly when its sender equals the first used label up to case, and in the second exactly when it equals only the second |
| Lemmatize.Words | scripts/lemmatize_author_a.py:26 | `re.findall` of `\b[а-яёА-ЯЁ]{2,}\b`: the scanner from position 0 |
| Lemmatize.WordsFrom | scripts/lemmatize_author_a.py:26 | the scanner: from each run of class characters, the run itself when it is two or more long and bounded by non-word characters, then on after the run |
| Lemmatize.IsWord | scripts/lemmatize_author_a.py:26 | the pattern as a relation: a slice of two or more class characters with `\b` before and after |
| Lemmatize.WordsAt | scripts/lemmatize_author_a.py:26 | the reference reading of `findall`: every position in turn, in order, contributes the match starting there, if any |
| Lemmatize.WordEnd | scripts/lemmatize_author_a.py:26 | a match ends exactly where the run of class characters from its start ends, so each position starts at most one match |
| Lemmatize.WordsFromScan | scripts/lemmatize_author_a.py:26 | the scanner gives exactly the reference's matches, in the same order |
| Lemmatize.WordsAtSound | scripts/lemmatize_author_a.py:26 | every match the reference reports from a position on is a slice matching the pattern that starts there or later |
| Lemmatize.WordsAtComplete | scripts/lemmatize_author_a.py:26 | every slice matching the pattern from a position on is reported by the reference |
| Lemmatize.WordsSound | scripts/lemmatize_author_a.py:26 | every token is a contiguous slice of the text matching the pattern |
| Lemmatize.WordsComplete | scripts/lemmatize_author_a.py:26 | every contiguous slice of the text matching the pattern is a token |
| Lemmatize.LoweredWords | scripts/lemmatize_author_a.py:26 | every token of the lowered text is a slice of it matching the pattern, made of `[а-яё]` only |
| Lemmatize.WordsHyphen | scripts/lemmatize_author_a.py:26 | a hyphen splits words: "кто-то" gives "кто" and "то" |
| Lemmatize.WordsShort | scripts/lemmatize_author_a.py:26 | one-letter words are dropped: "я и ты" gives only "ты" |
| Lemmatize.WordsTouching | scripts/lemmatize_author_a.py:26 | for every text, a whole run of class characters next to another word character (digit, Latin letter, `_`) starts no match, and the scan over it reports nothing |
| Lemmatize.WordsTouchingCases | scripts/lemmatize_author_a.py:26 | "5мама" and "мамаx" give no tokens |
| Lemmatize.CleanAndLemmatize | scripts/lemmatize_author_a.py:25-34 | the loop emits, in order, the analyzer's lemma of each token that passes the filter |
| Lemmatize.Keeps | scripts/lemmatize_author_a.py:17-23 | the shared filter: POS NOUN, VERB, ADJF or ADJS and a lemma outside the 53 stopwords, which both lemmatisers define identically (also lines 32 there and 24-30, 49 of scripts/lemmatize_author_b_advanced.py) |
| Lemmatize.KeptLemmasFilter | scripts/lemmatize_author_a.py:27-34 | the output is the lemma of each analysis that passes the filter, in token order, and nothing else |
| Lemmatize.KeptLemmas | scripts/lemmatize_author_a.py:32-33 | the filter-and-emit step shared by both lemmatisers, whose meaning `KeptLemmasFilter`, `KeptLemmasMembers` and `KeptLemmasSubseq` state |
| Lemmatize.SimpleLemmas | scripts/lemmatize_author_a.py:25-34 | `clean_and_lemmatize` as a function: the kept lemmas of the analyses of the tokens of the lowered text, which `CleanAndLemmatize` computes |
| Lemmatize.AdvancedLemmas | scripts/lemmatize_author_b_advanced.py:32-52 | `extract_lemmas` as a function: the kept lemmas of the resolved tokens of the tagged, space-joined razdel tokens, which `ExtractLemmas` computes |
| Lemmatize.KeptLemmasMembers | scripts/lemmatize_author_b_advanced.py:49-50 | a lemma is emitted exactly when some token's analysis has POS NOUN, VERB, ADJF or ADJS and the lemma is not a stopword; the simple variant applies the same filter with the same stopwords (scripts/lemmatize_author_a.py lines 17-23 and 32-33) |
| Lemmatize.KeptLemmasSubseq | scripts/lemmatize_author_a.py:27-34 | the output is a subsequence of the tokens' lemmas in token order, so no longer than the token list; the same holds for the advanced variant's resolved lemmas (scripts/lemmatize_author_b_advanced.py lines 40-52) |
| Lemmatize.Resolve | scripts/lemmatize_author_b_advanced.py:41-47 | the analyzer's first parse supplies both lemma and POS when the tagger's lemma is missing, empty or the token's own text; otherwise the tagger's pair is kept, and its lemma is non-empty and differs from the token |
| Lemmatize.NeedsFallback | scripts/lemmatize_author_b_advanced.py:44 | the fallback condition: the tagger gave no lemma, an empty one (`not lemma`) or the token's own text |
| Lemmatize.ExtractLemmas | scripts/lemmatize_author_b_advanced.py:32-52 | the loop emits, in order, the resolved lemma of each token of the tagged joined text that passes the filter |
| Lemmatize.SimpleColumn | scripts/lemmatize_author_a.py:43 | the lemmas column has exactly one list per row, that row's lemmas |
| Lemmatize.AdvancedColumn | scripts/lemmatize_author_b_advanced.py:59 | the lemmas column has exactly one list per row, that row's lemmas |
| Frequency.Flatten | scripts/lemmatize_author_a.py:45-46 | the combined list is the rows' lists one after another |
| Frequency.CountAll | scripts/lemmatize_author_b_advanced.py:64 | the counter's keys are the distinct lemmas in first-occurrence order, and each count is that lemma's number of occurrences |
| Frequency.Frequencies | scripts/lemmatize_author_a.py:45-55 | the table is the sorted counter of all rows' lemmas, and the reported unique-lemma number is its length |
| Frequency.FrequencyTable | scripts/lemmatize_author_b_advanced.py:64-65 | the counter's entries sorted by descending count |
| Frequency.Entries | scripts/lemmatize_author_b_advanced.py:64 | the `Counter` as a list: one entry per distinct lemma, in first-occurrence order, with its count, as `CountAll` states |
| Frequency.FrequencySorted | scripts/lemmatize_author_b_advanced.py:65 | counts never increase down the table |
| Frequency.FrequencyCounts | scripts/lemmatize_author_b_advanced.py:64 | every entry is a lemma of the input with its exact number of occurrences, at least one |
| Frequency.FrequencyCoverage | scripts/lemmatize_author_a.py:48-55 | every input lemma has an entry, and the table has one entry per distinct lemma |
| Frequency.FrequencyUnique | scripts/lemmatize_author_a.py:48-49 | no lemma has two entries |
| Frequency.FrequencySum | scripts/lemmatize_author_b_advanced.py:61-64 | the counts add up to the total number of lemmas over all rows |

## Left out

- BeautifulSoup: a page is given as the list of its message divs, each with an optional header text and the texts of its direct child divs (`find_all`, `get_text(" ", strip=True)`).
- chardet and real decoding: the detector and both decoders are function parameters; a raised decode error is a `None` result.
- Encoding.ChosenEncoding: the confidence is a real number, not a binary floating-point value.
- File and folder I/O: the walk is a given list of folders with their relative paths and file contents, in `os.walk` order; `os.path.relpath`, `os.makedirs`, file reading and every CSV and JSON write are not modelled. The saved roles are the `used` field of the result.
- `load_config` reading and parsing `config.json`: its two results are parameters. The source returns both None when the file does not exist or holds invalid JSON (scripts/add_author_role.py:15-23), and that is the only fallback it has.
- The crashes of `load_config` are not modelled: an existing `config.json` that cannot be opened (`PermissionError`), that is not UTF-8 (`UnicodeDecodeError`), or whose JSON is not an object (`AttributeError` from `config.get`) ends the stage with an uncaught exception, while the model always has the two values. JSON values that are not strings are not modelled either.
- Where inside a message BeautifulSoup finds the header div is not modelled: the header text is given, or its absence.
- The CSV round trip between stages is treated as the identity: pandas turning empty cells into NaN (and `str(text)` turning them into "nan") is not modelled.
- Datetime.Is: `\d` is ASCII digits only, while Python also accepts other Unicode decimal digits; `[а-яА-Я]` under IGNORECASE also matches a few rare Cyrillic letters (such as U+1C80) that are not modelled.
- Text.LowerChar: `str.lower` is modelled for ASCII, Latin-1 and Cyrillic (U+0400 to U+042F) only.
- Lemmatize.IsWordChar: Python's `\w` is modelled for ASCII, Latin-1 and Cyrillic letters and ASCII digits only.
- razdel, natasha and pymorphy2: tokenization, segmentation with tagging, and the first analyzer parse are function parameters.
- Roles.AutoDetect: ties between equally frequent senders are broken by first occurrence; the source promises no tie order, so the lemmas state only order-independent facts.
- Frequency.FrequencyTable: entries with equal counts are in first-occurrence order (a stable sort); the source promises only descending counts, and so do the lemmas.
- Progress bars, console messages, `sys.exit` itself (modelled as the error result with status 1) and `main.py`, which only launches the stages as processes.
