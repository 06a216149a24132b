# Ocrad recognition core, modelled in Dafny

This project models the deterministic logic that GNU Ocrad 0.25 runs around
character recognition, together with the histogram it takes from Ocrad 0.24.
It covers the following:

- **Histogram** (`Histograms`): a growable table of bucket counts with a
  sample counter. The median is computed exactly as the code computes it.
- **Utilities** (`Common`): the fuzzy integer comparison `Ocrad::similar`,
  the `Charset` bitset, the transformation, filter and output-format name
  tables, and C++ truncating division.
- **ISO-8859 escapes** (`Iso8859`): the decoder for backslash escape
  sequences and the value of a hexadecimal digit.
- **User filters** (`UserFilterSyntax`, `UserFilters`):
  - the language of filter files, given as specification functions:
    bracket sets `[...]` and `[^...]` with ranges, the character tokens
    `'X'`, `'\esc'` and `UXXXX`, the `=target` suffix, and the tokens of a
    rule line;
  - the `Set` and `User_filter` objects that parse it step by step, with a
    256-entry dense table, an ascending sparse table for the other codes,
    and the `leave`/`mark`/discard default.
- **Characters** (`Characters`): a character's blob list kept in reading
  order by (vcenter, hcenter), and its guess list. The guess operations are
  insert, delete, swap and merge. The class filters and the user filter
  rewrite the guesses.
- **Text lines** (`Textlines`):
  - an ordered sequence of characters with a big-initials prefix;
  - insertion in reading order, deletion, and joining two lines;
  - the mean sizes and the mean gap;
  - word-space and tabulation insertion;
  - the line filters: same height by the histogram median, deletion of
    characters a filter emptied, removal of broken unrecognised pieces, and
    removal of leading, trailing and duplicate spaces.
- **Glyph features** (`Feats`):
  - the row and column run-length scans of a blob's bitmap;
  - the lazily cached horizontal-bar detector, a two-state scan over the
    rows' longest runs with trimming, margins and pruning to three bars;
  - the vertical-bar detector, a four-state scan over columns;
  - the column run that holds a pixel.
- **Support modules**: `Geometry` holds the collaborators (rectangle,
  segment, blob). `Sequences` holds the `std::vector` edits the core makes
  in place: insert, erase, and erase-by-mask.

Objects that the source updates in place are classes whose fields the
methods reassign: `Histogram`, `Charset`, `Transformation`, `Control`, `Set`,
`UserFilter`, `Character`, `Textline` and `Features`. Every method is proved
against a specification function of the inputs or of the old state; the two
error paths named under "## Left out" are stated more loosely. The
properties the source promises are proved as lemmas about those functions.

Three points where this model follows the code rather than its description:

- **The median.** `Histogram::median` re-counts bucket `l` when it searches
  for the upper end. For samples {0, 2} it therefore gives 0, not the
  average 1 of the two middle values (`Histograms.MedianOfZeroAndTwo`).
- **Broken unrecognised characters.**
  `join_broken_unrecognized_characters` deletes each such piece. It does not
  merge the piece into its neighbour.
- **The order of the line filters.** `apply_filter` and `apply_user_filter`
  visit the characters last first and rewrite each one before deciding
  whether to delete it. Each rewrite depends only on the character itself,
  so the model computes every rewritten character first (`ClassFiltered`,
  `UserFilteredChars`) and then runs the same last-first deletion loop.

## Model

| member | source | states |
|---|---|---|
| Histograms.Histogram.constructor | ocrad-0.24/histogram.h:24 | a new histogram has no samples and no buckets, and its sample count equals the sum of its buckets |
| Histograms.Histogram.Reset | ocrad-0.24/histogram.h:30 | afterwards `samples() == 0` and the histogram is empty; the sample count still equals the sum of the buckets |
| Histograms.Histogram.AddSample | ocrad-0.24/histogram.h:32-37 | when the sample and the count are both below INT_MAX, the count rises by one and the buckets become `Bumped`; otherwise nothing changes; the count always equals the sum of the buckets |
| Histograms.Bumped | ocrad-0.24/histogram.h:35-36 | after sample `s` the table has `max(size, s+1)` buckets, bucket `s` has risen by one, every other bucket is unchanged (new ones are 0), and the sum has risen by one |
| Histograms.Histogram.Median | ocrad-0.24/histogram.h:39-49 | returns `(l + r) / 2` for the ends `l` and `r` of the two scans (`MedianOf`) |
| Histograms.Histogram.LowerScan | ocrad-0.24/histogram.h:41-43 | stops at the first bucket where twice the running count reaches the samples, or at the end, holding the count up to there |
| Histograms.Histogram.UpperScan | ocrad-0.24/histogram.h:44-47 | restarts at `l` with the first scan's count, so bucket `l` is counted again, and advances while twice the count is at most the samples |
| Histograms.FirstReaching | ocrad-0.24/histogram.h:42-43 | the bucket returned is the first from `l` on where twice the running count reaches the samples; every bucket before it falls short |
| Histograms.UpperEnd | ocrad-0.24/histogram.h:45-47 | the end returned is the first position from `r` on where twice the re-counted sum exceeds the samples, or the table's end |
| Histograms.MedianOfEmpty | ocrad-0.24/histogram.h:39-49 | the median of an empty histogram is 0 |
| Histograms.MedianInRange | ocrad-0.24/histogram.h:39-49 | for a non-empty histogram whose count is the sum of its buckets, the median is a bucket index in `[0, size()-1]` |
| Histograms.MedianOfSingleBucket | ocrad-0.24/histogram.h:41-48 | when every sample lies in bucket `k`, the median is `k` |
| Histograms.MedianOfZeroAndTwo | ocrad-0.24/histogram.h:41-48 | samples 0 and 2 give median 0: the second scan counts bucket 0 again |
| Histograms.SumUpdate | ocrad-0.24/histogram.h:36 | incrementing one bucket changes the sum of the buckets by exactly that amount |
| Histograms.SumNonNegative | ocrad-0.24/histogram.h:21 | buckets that are never negative have a non-negative sum |
| Common.Div | ocrad-0.25/textline.cc:172 | C++ integer division, as in the centre column `(l + r) / 2` of an inserted space: equal to the floor quotient for a non-negative dividend and a positive divisor, and truncated toward zero (the negated quotient of the magnitudes) for a negative dividend |
| Common.ToUnsigned | ocrad-0.25/user_filter.cc:201-203 | the value an `int` takes when passed as a 32-bit `unsigned`, unchanged when already in range |
| Common.Similar | ocrad-0.25/common.cc:90-97 | with a zero percentage two magnitudes are similar exactly when equal; with a negative one, exactly when both are 0 |
| Common.SimilarWithinAbsolute | ocrad-0.25/common.cc:93-94 | `similar(a,b,p,d)` holds whenever `p > 0` and `|a-b| <= d` |
| Common.SimilarByPercent | ocrad-0.25/common.cc:95-96 | otherwise `similar` holds exactly when `100*|a-b| <= max(|a|,|b|)*p` |
| Common.SimilarSymmetric | ocrad-0.25/common.cc:90-97 | `similar` is symmetric in `a` and `b` |
| Common.SimilarReflexive | ocrad-0.25/common.cc:90-97 | a value is similar to itself once the percentage is positive |
| Common.IndexOfName | ocrad-0.25/common.cc:140-141 | the index returned is the first table entry with the name |
| Common.FindName | ocrad-0.25/common.cc:102-105 | the table search finds the name exactly when the table lists it, at the first entry with that name |
| Common.Charset.constructor | ocrad-0.25/common.h:37 | a new charset has no bit set |
| Common.Charset.Enable | ocrad-0.25/common.cc:100-106 | a listed name ORs in its charset's bit and returns true; an unknown name returns false and leaves the set unchanged |
| Common.Charset.Enabled | ocrad-0.25/common.cc:109-113 | with nothing enabled, exactly ISO-8859-15 counts as enabled; a charset whose bit is set is enabled |
| Common.Charset.Only | ocrad-0.25/common.cc:116-120 | with nothing enabled, exactly ISO-8859-15 is the only one; a charset that is the only one is enabled, and no other charset is |
| Common.EnabledAfterEnable | ocrad-0.25/common.cc:104-112 | once a charset's bit is ORed in, that charset counts as enabled |
| Common.Transformation.constructor | ocrad-0.25/common.h:55 | a new transformation is `none` |
| Common.Transformation.Set | ocrad-0.25/common.cc:138-144 | a listed name sets the type of its table entry and returns true; any other name returns false with no change |
| Common.Control.constructor | ocrad-0.25/common.h:89-91 | a new control has no filters and byte output |
| Common.Control.AddFilter | ocrad-0.25/common.cc:170-186 | a listed name appends exactly one filter of its table type and returns true; any other name returns false with the filters unchanged |
| Common.Control.SetFormat | ocrad-0.25/common.cc:207-212 | "byte" and "utf8" set the output format and return true; any other name returns false with no change |
| Common.FilterTableExcludesUserAndHelp | ocrad-0.25/common.cc:45-57 | neither "help" nor "user" is a filter name, and no name selects the user filter |
| Common.TableNamesDistinct | ocrad-0.25/common.cc:31-76 | each table lists every name once, so a name selects exactly one entry |
| Iso8859.XValue | ocrad-0.25/iso_8859.cc:64-92 | a hexadecimal digit, in either case, gives its value 0..15; every other character gives -1 |
| Iso8859.OctalRunLength | ocrad-0.25/iso_8859.cc:47-48 | an octal escape takes its whole run of octal digits, 1 to 3 of them |
| Iso8859.EscapeOf | ocrad-0.25/iso_8859.cc:28-61 | the code is -1 exactly when the length is 0; on success the code is non-negative and the length lies between 1 and 3 |
| Iso8859.Escape | ocrad-0.25/iso_8859.cc:28-61 | decodes the escape sequence at `i` to the code and length `EscapeOf` gives |
| Iso8859.EscapePastEnd | ocrad-0.25/iso_8859.cc:30 | an escape that starts past the end is an error (-1) |
| Iso8859.EscapeLetters | ocrad-0.25/iso_8859.cc:36-43 | a, b, e, f, n, r, t and v stand for BEL, BS, ESC, FF, LF, CR, TAB and VT, with length 1 |
| Iso8859.EscapeOctal | ocrad-0.25/iso_8859.cc:44-50 | an octal escape is an error exactly when its digits' value exceeds 255; otherwise it yields that value with the run's length |
| Iso8859.EscapeHex | ocrad-0.25/iso_8859.cc:51-57 | `\x` and `\X` fail unless two hexadecimal digits follow; on success the length is 3 and the code a byte |
| Iso8859.EscapeOther | ocrad-0.25/iso_8859.cc:31-60 | any other character stands for itself, with length 1 |
| Iso8859.EscapeIsByte | ocrad-0.25/iso_8859.cc:28-61 | in a byte string every decoded escape is below 256 |
| Iso8859.OctalExamples | ocrad-0.25/iso_8859.cc:44-50 | `\377` is 255, `\400` is an error, `\0123` stops after three digits, and `\8` is not octal |
| UserFilterSyntax.SkipSpaces | ocrad-0.25/user_filter.cc:139 | the position reached is the first one at or after `i` that is not white space |
| UserFilterSyntax.CoversAppend | ocrad-0.25/user_filter.cc:64-75 | one more member covers a byte exactly when it or an earlier member covers it |
| UserFilterSyntax.SetChar | ocrad-0.25/user_filter.cc:55-62 | a plain set character stands for itself; a backslash starts an escape, which may fail |
| UserFilterSyntax.ItemAt | ocrad-0.25/user_filter.cc:55-76 | a member is one character, or a range when a `-` follows that is not before `]` or the end; the position always advances |
| UserFilterSyntax.ItemsFrom | ocrad-0.25/user_filter.cc:53-77 | the members up to the first unescaped `]`, which closes the set, or none when the text ends first or an escape fails |
| UserFilterSyntax.SetSyntax | ocrad-0.25/user_filter.cc:44-79 | a set parses only from a `[` with at least two more characters, and its text ends with the closing `]` |
| UserFilterSyntax.SetAfter | ocrad-0.25/user_filter.cc:53-78 | the parsed length runs from the `[` to just past the closing `]`, and the polarity is the one the `^` chose |
| UserFilterSyntax.HexValue | ocrad-0.25/user_filter.cc:154-159 | four hexadecimal digits give their value; any non-digit gives -1 |
| UserFilterSyntax.HexValueBound | ocrad-0.25/user_filter.cc:154-159 | the value of `n` hexadecimal digits is below `16^n` |
| UserFilterSyntax.CharForm | ocrad-0.25/user_filter.cc:140-161 | a character written `'X'`, `'\esc'` or `UXXXX` takes at least three characters and yields its code, or -1 |
| UserFilterSyntax.CharTokenOf | ocrad-0.25/user_filter.cc:135-168 | a successful token is followed, after spaces, by the end of the line, a `,` or a `-` |
| UserFilterSyntax.RFind | ocrad-0.25/user_filter.cc:203 | `rfind('=', pos)` finds the last `=` at or before `pos`, or reports there is none |
| UserFilterSyntax.TargetCode | ocrad-0.25/user_filter.cc:205-207 | a `=` names a target only when one character token follows it up to the end of the line and the tables can hold its code |
| UserFilterSyntax.TargetCodes | ocrad-0.25/user_filter.cc:201-209 | lists the target code of every position of the line |
| UserFilterSyntax.TargetFrom | ocrad-0.25/user_filter.cc:201-209 | a target found is the code after a `=`, and the rules end at that `=`; without a target the code is -1 and the whole line is rules |
| UserFilterSyntax.TargetFromNone | ocrad-0.25/user_filter.cc:203-204 | with no `=` at or before the search position there is no target |
| UserFilterSyntax.TargetFromHit | ocrad-0.25/user_filter.cc:207-208 | the last `=`, when a target follows it, gives that target and cuts the line there |
| UserFilterSyntax.TargetFromSkip | ocrad-0.25/user_filter.cc:201-203 | a `=` without a target is passed over, and the search goes on before it with one try fewer |
| UserFilterSyntax.TargetOf | ocrad-0.25/user_filter.cc:200-209 | the target of a line is -1 or a code in 0..0xFFFF that the last or the second-last `=` names |
| UserFilterSyntax.AfterComma | ocrad-0.25/user_filter.cc:241 | one `,` after a token is skipped |
| UserFilterSyntax.TokenAt | ocrad-0.25/user_filter.cc:217-240 | a token is a set, a character or a range; an error is any other text, a bad set or character, a code above 0xFFFF, or a range that does not ascend |
| UserFilterSyntax.TokenAtChar | ocrad-0.25/user_filter.cc:226-238 | a `'` or `U` starts a character, or a range when a `-` follows it |
| UserFilterSyntax.RangeAt | ocrad-0.25/user_filter.cc:231-237 | a range is accepted only when its upper end is greater than its lower end |
| UserFilterSyntax.LineTokens | ocrad-0.25/user_filter.cc:211-242 | the tokens of a rule line, or an error; every accepted token is well formed |
| UserFilterSyntax.LineTokensUnfold | ocrad-0.25/user_filter.cc:212-241 | one step of the rule loop: spaces, then the end of the line, an error, or one token and the rest after an optional comma |
| UserFilterSyntax.SetNeedsBrackets | ocrad-0.25/user_filter.cc:47-78 | a set has a non-zero length only when it starts with `[` and has at least 3 characters, the last being `]` |
| UserFilterSyntax.MalformedSetIsEmpty | ocrad-0.25/user_filter.cc:39-78 | a set of length 0 includes nothing |
| UserFilterSyntax.CaretInverts | ocrad-0.25/user_filter.cc:39-50 | a `^` right after `[` inverts membership |
| UserFilterSyntax.LeadingBracketIsMember | ocrad-0.25/user_filter.cc:51 | a `]` right after `[` or `[^` is a member, not the end of the set |
| UserFilterSyntax.DashMakesRange | ocrad-0.25/user_filter.cc:63-75 | `a-b` marks every byte from `a` to `b` inclusive |
| UserFilterSyntax.DashBeforeCloseIsLiteral | ocrad-0.25/user_filter.cc:63-64 | a `-` followed by `]` or the end of the text makes no range |
| UserFilterSyntax.ReversedRangeIsEmpty | ocrad-0.25/user_filter.cc:75 | a range whose upper end is below its lower end marks nothing |
| UserFilterSyntax.ItemsAreBytes | ocrad-0.25/user_filter.cc:32-75 | in a byte string every set member is a byte |
| UserFilterSyntax.SetCharIsByte | ocrad-0.25/user_filter.cc:55-62 | in a byte string a set character is a byte |
| UserFilterSyntax.CharTokenEnds | ocrad-0.25/user_filter.cc:162-166 | a successful character token ends at the end of the line, a `,` or a `-` |
| UserFilterSyntax.UnicodeTokenRange | ocrad-0.25/user_filter.cc:151-161 | `UXXXX` succeeds exactly when the four characters are hexadecimal digits, and gives a code in 0..0xFFFF |
| UserFilterSyntax.UnicodeTokenExample | ocrad-0.25/user_filter.cc:151-161 | `U00e9` is code 0xE9 |
| UserFilterSyntax.TrailingTextRejected | ocrad-0.25/user_filter.cc:164-165 | other text after a complete character, apart from spaces, `,` and `-`, makes the token an error |
| UserFilterSyntax.QuotedTokenExample | ocrad-0.25/user_filter.cc:148-149 | `'a'` is the UCS code the tables give for `a`, and takes three characters |
| UserFilterSyntax.UnicodeTokenAt | ocrad-0.25/user_filter.cc:151-166 | a `UXXXX` followed by the end, a `,` or a `-` is that code, and ends right after the digits |
| UserFilterSyntax.DescendingRangeRejected | ocrad-0.25/user_filter.cc:234-235 | a range whose upper end is not above its lower end is an error |
| UserFilterSyntax.StrayTextExample | ocrad-0.25/user_filter.cc:240 | text that is neither a set nor a character is an error |
| UserFilters.ReadSetChar | ocrad-0.25/user_filter.cc:55-62 | reads the set character at `i`, decoding its escape; a negative code exactly when the escape is bad |
| UserFilters.Set.MarkRange | ocrad-0.25/user_filter.cc:75 | marks every byte from `lo` to `hi`, none when `hi < lo`, and leaves the other marks |
| UserFilters.Set.MarkMember | ocrad-0.25/user_filter.cc:55-76 | reads one member and marks exactly the bytes it covers; fails exactly on a bad escape |
| UserFilters.Set.ScanMembers | ocrad-0.25/user_filter.cc:53-77 | the member loop ends at the closing `]` exactly when the set is closed, with the marks of every member read |
| UserFilters.Set.constructor | ocrad-0.25/user_filter.cc:44-79 | the parsed length is the set's length, 0 when malformed, and `includes(c)` holds exactly for the bytes the set denotes |
| UserFilters.SetMeaning | ocrad-0.25/user_filter.cc:47-78 | what the constructor's scan means: the set's length, and the bytes included given the marks the members left |
| UserFilters.LeadCovers | ocrad-0.25/user_filter.cc:51 | the marks after a leading `]` are exactly what that member covers |
| UserFilters.FindSpec | ocrad-0.25/user_filter.cc:257-258 | the sparse table has no entry for a code exactly when the search finds none; otherwise it finds an entry's new code |
| UserFilters.FindUnique | ocrad-0.25/user_filter.cc:257-258 | in an ascending table the entry for a code is the one found |
| UserFilters.InsertAscending | ocrad-0.25/user_filter.cc:125-128 | inserting a code at the place the backward scan finds keeps the table strictly ascending |
| UserFilters.FindInsert | ocrad-0.25/user_filter.cc:125-128 | inserting at that place keeps the table ascending and adds only the new code's mapping |
| UserFilters.FindReplace | ocrad-0.25/user_filter.cc:129 | overwriting an entry's new code changes only that code's mapping |
| UserFilters.UserFilter.StoreHigh | ocrad-0.25/user_filter.cc:123-130 | a code of 256 or more is inserted in order or has its entry overwritten; the table stays strictly ascending without duplicates, and no other code's mapping changes |
| UserFilters.UserFilter.EnableChar | ocrad-0.25/user_filter.cc:118-132 | fails, changing nothing, for a code outside 0..0xFFFF; an out-of-range new code becomes the code itself; codes below 256 go only to the dense table; only that code's mapping changes |
| UserFilters.UserFilter.GetNewCode | ocrad-0.25/user_filter.cc:249-263 | the stored mapping when it is non-negative; otherwise the code itself under `leave`, else -1 |
| UserFilters.UserFilter.ParseChar | ocrad-0.25/user_filter.cc:135-168 | reads the character token at `i`: the code `CharTokenOf` gives and the position reached |
| UserFilters.ReadHex4 | ocrad-0.25/user_filter.cc:153-159 | the value of the four hexadecimal digits after `U`, or -1 |
| UserFilters.ReadCharForm | ocrad-0.25/user_filter.cc:140-161 | reads `'X'`, `'\esc'` or `UXXXX` at `i` as `CharForm` describes |
| UserFilters.UserFilter.ParseTarget | ocrad-0.25/user_filter.cc:200-209 | finds the `=target` suffix as `TargetOf` describes and enables the target as mapping to itself, and nothing else |
| UserFilters.UserFilter.FindTarget | ocrad-0.25/user_filter.cc:201-204 | the search for `=` from the end, with two tries, gives `TargetFrom` |
| UserFilters.UserFilter.TryTarget | ocrad-0.25/user_filter.cc:205-207 | the code the `=` at `equ` names, as `TargetCode` gives it |
| UserFilters.UserFilter.EnableRange | ocrad-0.25/user_filter.cc:236-237 | enables every code from `lo` to `hi`; fails exactly when a code above 0xFFFF is reached; no code outside the range changes |
| UserFilters.UserFilter.EnableSet | ocrad-0.25/user_filter.cc:222-224 | enables exactly the bytes the set includes, each to the target or to itself |
| UserFilters.UserFilter.ParseToken | ocrad-0.25/user_filter.cc:214-240 | reads and enables the token at `i`; the status is 2 exactly when `TokenAt` finds an error; on success the codes it covers map to the target or to themselves, and the others keep their mapping |
| UserFilters.UserFilter.ParseCharOrRange | ocrad-0.25/user_filter.cc:226-238 | reads and enables a character, or a range; same status and mapping as `TokenAt` describes |
| UserFilters.UserFilter.ParseRangeEnd | ocrad-0.25/user_filter.cc:231-237 | reads the upper end of a range and enables the rest of it; an error exactly when `RangeAt` rejects it |
| UserFilters.UserFilter.ParseRules | ocrad-0.25/user_filter.cc:211-242 | the status is 2 exactly when the line's tokens have an error; on success exactly the codes they cover map to the target or to themselves |
| UserFilters.UserFilter.ParseLine | ocrad-0.25/user_filter.cc:192-242 | a `leave` or `mark` line sets the default, or is an error when a default is already set; a rule line enables its codes as `LineLookup` describes, or is an error |
| UserFilters.UserFilter.constructor | ocrad-0.25/user_filter.cc:179-246 | over already-read lines, the status is that of the first bad line; an accepted file leaves the default its `leave`/`mark` line set and every code mapped as its lines say |
| UserFilters.Classify | ocrad-0.25/user_filter.cc:195-209 | a line is a `leave`/`mark` default, or rules with a target in 0..0xFFFF or none |
| UserFilters.Classified | ocrad-0.25/user_filter.cc:192-194 | classifies every line of a file |
| UserFilters.TokensCoverAppend | ocrad-0.25/user_filter.cc:212-242 | one more token covers a code exactly when it or an earlier token covers it |
| UserFilters.FileStatus | ocrad-0.25/user_filter.cc:192-243 | the status of a file is 0 or 2; a file with status 0 has no rule line with a syntax error |
| UserFilters.FileLookup | ocrad-0.25/user_filter.cc:192-243 | after the lines of an accepted file a code keeps its prior mapping or takes the one a line naming it gives |
| UserFilters.TargetMapsToItself | ocrad-0.25/user_filter.cc:207 | after an accepted rule line the `=target` code maps to itself |
| UserFilters.UntouchedKeepsPrior | ocrad-0.25/user_filter.cc:192-243 | a code that no line names keeps the mapping it had |
| UserFilters.LastTouchWins | ocrad-0.25/user_filter.cc:122-129 | the last line that names a code decides its mapping: later rules override earlier ones |
| UserFilters.DefaultAlreadySet | ocrad-0.25/user_filter.cc:195-198 | once a default is set, a later `leave` or `mark` line is an error |
| UserFilters.DefaultAtMostOnce | ocrad-0.25/user_filter.cc:195-198 | two `leave`/`mark` lines in one file are an error |
| UserFilters.TwoDefaultLinesRejected | ocrad-0.25/user_filter.cc:195-198 | a file with two `leave` or `mark` lines is rejected with status 2 |
| Characters.BlobSlot | ocrad-0.25/character.cc:104-111 | the new blob goes just after the last blob whose key (vcenter, hcenter) is not above its own; every later blob's key is above it |
| Characters.BlobSlotUnique | ocrad-0.25/character.cc:104-111 | the only place with that property is the slot |
| Characters.Character.ShiftBlobp | ocrad-0.25/character.cc:101-112 | the rectangle grows to hold the blob, and the blob is inserted at its slot |
| Characters.Character.FindBlobSlot | ocrad-0.25/character.cc:104-110 | the backward scan stops at the slot |
| Characters.ShiftKeepsSorted | ocrad-0.25/character.cc:101-112 | inserting at the slot keeps the blob list sorted by key |
| Characters.KeyLeTotal | ocrad-0.25/character.cc:108-109 | any two blob keys are ordered one way or the other |
| Characters.Character.constructor | ocrad-0.25/textline.cc:175 | a character built for a space has the rectangle, no blobs and the one guess given |
| Characters.Character.Area | ocrad-0.25/character.cc:67-72 | the sum of the blobs' areas |
| Characters.AreaOfInsert | ocrad-0.25/character.cc:67-72 | inserting a blob adds its area to the total |
| Characters.Character.MainBlob | ocrad-0.25/character.cc:91-98 | the index of the first blob of largest size: no blob is larger, and every blob before it is smaller |
| Characters.Character.InsertGuess | ocrad-0.25/character.cc:115-120 | the guess list grows by one, with the new guess at `i` and the rest shifted |
| Characters.Character.DeleteGuess | ocrad-0.25/character.cc:123-128 | removes exactly guess `i` |
| Characters.Character.SetMergedGuess | ocrad-0.25/character.cc:131-144 | succeeds exactly when the blob exists and `left <= right1 < right`, leaving the three merged guesses; otherwise nothing changes |
| Characters.SwapCodes | ocrad-0.25/character.cc:147-153 | the codes at `i` and `j` are exchanged; every confidence stays where it was and every other guess is unchanged |
| Characters.Character.SwapGuesses | ocrad-0.25/character.cc:147-153 | the guesses become `SwapCodes` of the old ones |
| Characters.SwapCodesTwice | ocrad-0.25/character.cc:147-153 | swapping twice restores the guess list |
| Characters.Character.Maybe | ocrad-0.25/character.cc:164-169 | true exactly when some guess has the code |
| Characters.Character.Join | ocrad-0.25/character.cc:188-192 | every blob of `c` is inserted in order, the rectangle grows to hold them, and `c` is left with no blobs |
| Characters.JoinedBlobsCount | ocrad-0.25/character.cc:188-192 | joining loses and adds no blob: the blob count is preserved |
| Characters.JoinedBlobsSorted | ocrad-0.25/character.cc:188-192 | joining keeps the blob list in reading order |
| Characters.JoinedArea | ocrad-0.25/character.cc:188-192 | joining keeps the total area |
| Characters.Character.ByteResult | ocrad-0.25/character.cc:195-203 | the byte the top guess maps to, or `_` when there are no guesses or the byte is 0; never 0 |
| Characters.FirstInClass | ocrad-0.25/character.cc:363-395 | the first guess from `k` on in the filter's class, all guesses before it being outside the class |
| Characters.Character.FindInClass | ocrad-0.25/character.cc:363-364 | the search after the top guess stops at `FirstInClass` |
| Characters.Character.ApplyFilter | ocrad-0.25/character.cc:350-404 | the guesses become `FilteredGuesses` of the old ones, for the character's height and width |
| Characters.FilteredGuesses | ocrad-0.25/character.cc:350-404 | a class filter only rewrites codes: the result keeps the number of guesses and every confidence, or is empty, and only a removing filter empties a non-empty list |
| Characters.FilterNoOp | ocrad-0.25/character.cc:352-402 | nothing changes with no guesses, nor under `same_height`, `text_block` or `user` |
| Characters.FilterOutcome | ocrad-0.25/character.cc:356-401 | after a removing filter the list is empty, its top guess is in the class, the old top guess was a space, or a tall `+` became `t` |
| Characters.FilterKeepsLength | ocrad-0.25/character.cc:360-389 | the non-removing filters keep the number of guesses and every confidence |
| Characters.FirstMapped | ocrad-0.25/character.cc:415-420 | the first guess from `k` on that the user filter maps, all before it being unmapped |
| Characters.FirstMappedUnique | ocrad-0.25/character.cc:415-420 | the guess where the search stops is `FirstMapped` |
| Characters.Character.FindMapped | ocrad-0.25/character.cc:415-420 | finds the first mapped guess after the top one, and its new code |
| Characters.UserFiltered | ocrad-0.25/character.cc:407-423 | the user filter keeps the number of guesses and every confidence, or clears the list; unless the top guess is a space, the new top code is the mapping of some guess the filter maps |
| Characters.Character.ApplyUserFilter | ocrad-0.25/character.cc:407-423 | the guesses become `UserFiltered` of the old ones |
| Characters.Character.UserFilteredGuesses | ocrad-0.25/character.cc:409-422 | computes `UserFiltered` of the guesses without changing them |
| Characters.UserFilterOutcomes | ocrad-0.25/character.cc:409-422 | a mapped top guess has only its code replaced; otherwise the first mapped lower guess is promoted and remapped, the rest staying; with no mapped guess, the list is cleared |
| Characters.UserFilterPromotes | ocrad-0.25/character.cc:418-419 | swapping in the first mapped guess and remapping it is the user filter's result |
| Characters.UserFilterKeepsSpaces | ocrad-0.25/character.cc:409 | a space on top is left alone |
| Sequences.Insert | ocrad-0.25/character.cc:119 | `insert` at `i`: one more element, the new one at `i`, the ones before unchanged and the ones after shifted |
| Sequences.Remove | ocrad-0.25/textline.cc:145 | `erase` at `i`: one fewer element, the ones before unchanged and the ones after shifted down |
| Sequences.RemoveInserted | ocrad-0.25/textline.cc:145-154 | erasing what was inserted gives back the vector |
| Sequences.InsertRemoved | ocrad-0.25/textline.cc:145-154 | re-inserting an erased element at its place gives back the vector |
| Sequences.InsertMultiset | ocrad-0.25/textline.cc:154 | insertion adds exactly the new element |
| Sequences.RemoveMultiset | ocrad-0.25/textline.cc:145 | erasure removes exactly the erased element |
| Sequences.SelectLength | ocrad-0.25/textline.cc:368-371 | erasing by a mask leaves as many elements as the mask keeps |
| Sequences.SelectKeeps | ocrad-0.25/textline.cc:368-371 | an element the mask keeps survives |
| Sequences.SelectMembers | ocrad-0.25/textline.cc:368-371 | every element left was in the vector |
| Sequences.SelectKeepsOrder | ocrad-0.25/feats.cc:151-152 | erasing by a mask keeps the order of the elements left |
| Sequences.DeletedFrom | ocrad-0.25/textline.cc:415-421 | the state a last-first deletion loop leaves once it has decided positions `i` on: the positions before `i` are untouched |
| Sequences.DecidedFrom | ocrad-0.25/textline.cc:375-382 | the same for a loop that rewrites each element before deciding whether to erase it |
| Sequences.DeletedFromAll | ocrad-0.25/textline.cc:415-421 | a last-first deletion loop over every position erases exactly the masked elements |
| Sequences.DecidedFromAll | ocrad-0.25/textline.cc:375-382 | a last-first loop that rewrites each element and then may erase it leaves the kept rewritten elements |
| Sequences.DeletedFromSelects | ocrad-0.25/textline.cc:417-420 | the state of the deletion loop after it decides positions `i` on is the untouched prefix, then what it kept of the rest |
| Sequences.DecidedFromSelects | ocrad-0.25/textline.cc:375-382 | the same for the rewriting loop |
| Sequences.Count | ocrad-0.25/textline.cc:368-371 | the number of kept positions is at most the length |
| Sequences.CountBelowLength | ocrad-0.25/textline.cc:371 | erasing something leaves fewer elements |
| Textlines.BigGapEnd | ocrad-0.25/textline.cc:42-56 | the position at or after `first` up to which every gap is at most the limit, the next gap (if any) exceeding it; it is a character of the line when `first` is |
| Textlines.FindBigGap | ocrad-0.25/textline.cc:44-56 | the scan returns `BigGapEnd` |
| Textlines.Textline.constructor | ocrad-0.25/textline.cc:61-62 | a line is a track, a count of big initials and its characters; a new line starts on its track with no characters and no initials (the default constructor is in `textline.h`, which is not part of this model) |
| Textlines.Textline.DeleteCharacter | ocrad-0.25/textline.cc:140-146 | removes exactly character `i`, and `big_initials` drops by one exactly when `i` was inside the prefix; the prefix stays within the line |
| Textlines.CharSlot | ocrad-0.25/textline.cc:151-153 | the new character's place: before the trailing run of characters it precedes |
| Textlines.CharSlotSplits | ocrad-0.25/textline.cc:151-153 | every character from the slot on is preceded by the new one, and the one before the slot is not |
| Textlines.CharSlotUnique | ocrad-0.25/textline.cc:151-153 | those two properties single out the slot |
| Textlines.FindCharSlot | ocrad-0.25/textline.cc:151-153 | the backward scan stops at the slot |
| Textlines.Textline.ShiftCharacterp | ocrad-0.25/textline.cc:149-158 | inserts at the slot and returns it; the prefix grows if the slot is inside it, or becomes `i+1` when `big` is set |
| Textlines.ShiftKeepsOrder | ocrad-0.25/textline.cc:149-158 | inserting at the slot keeps the line in reading order |
| Textlines.ShiftKeepsValid | ocrad-0.25/textline.cc:149-158 | inserting keeps the prefix within the line and adds one character |
| Textlines.Textline.Join | ocrad-0.25/textline.cc:228-233 | every character of `tl` is inserted in reading order, the first `tl.big_initials` as initials, and `tl` is left empty |
| Textlines.JoinKeepsCharacters | ocrad-0.25/textline.cc:228-233 | joining two lines loses and adds no character |
| Textlines.JoinKeepsOrder | ocrad-0.25/textline.cc:228-233 | joining keeps the line valid and in reading order, with the combined length |
| Textlines.Textline.InsertSpace | ocrad-0.25/textline.cc:161-179 | fails with no change when `c1.right()+1 > c2.left()-1`; otherwise inserts at `i` the space `SpaceBetween` describes |
| Textlines.SpaceBetween | ocrad-0.25/textline.cc:169-176 | the character made for a gap is a space with no blobs spanning exactly the empty columns, with a `\t` guess exactly when `tab` is set |
| Textlines.SpaceBetweenFills | ocrad-0.25/textline.cc:169-176 | where there is room, that space is a valid rectangle touching both neighbours |
| Textlines.SpaceBetweenAdded | ocrad-0.25/textline.cc:177 | inserting such a space keeps the old characters as a subsequence, every other character being a space |
| Textlines.Textline.InsertSpaces | ocrad-0.25/textline.cc:184-225 | the line becomes `SpacedLine` of the old one; nothing changes when the mean width is below 2; only space characters are inserted, so the old characters stay, in order |
| Textlines.SpacesAddedInsert | ocrad-0.25/textline.cc:207-222 | one more inserted space keeps the old characters as a subsequence |
| Textlines.SpacedWithWidth | ocrad-0.25/textline.cc:186-190 | `insert_spaces` at a given mean width: the line is left alone below 2 and never shortened |
| Textlines.SpacedLine | ocrad-0.25/textline.cc:184-225 | `insert_spaces` as a function of the line, at the line's own mean width: it never shortens the line |
| Textlines.SpacedLineWide | ocrad-0.25/textline.cc:186-190 | with a mean width of at least 2 the outer loop runs from the end of the initials, with the truncated mean width and three times it truncated |
| Textlines.SpacedLineKeepsInitials | ocrad-0.25/textline.cc:184-225 | the initials and the first character after them are never moved: spaces go only after them |
| Textlines.SpacedFrom | ocrad-0.25/textline.cc:191-224 | the outer loop from `first` on never shortens the line |
| Textlines.SpacedFromKeepsPrefix | ocrad-0.25/textline.cc:191-224 | the outer loop from `first` on leaves every character up to `first` in place |
| Textlines.Textline.SpaceRounds | ocrad-0.25/textline.cc:191-224 | the outer loop gives `SpacedFrom` and only inserts spaces |
| Textlines.SegmentOf | ocrad-0.25/textline.cc:193-223 | one round of the outer loop moves `first` forward, never shortens the line, and leaves fewer characters after the new `first` than after the old |
| Textlines.SegmentKeepsPrefix | ocrad-0.25/textline.cc:193-223 | one round leaves every character up to `first` in place |
| Textlines.Textline.SpaceSegment | ocrad-0.25/textline.cc:193-223 | one round of the outer loop gives `SegmentOf` and only inserts spaces |
| Textlines.RangeSpaced | ocrad-0.25/textline.cc:193-220 | the range up to the next big gap, after both passes: its end stays at or after `first`, the line never shortens, and no more characters follow the end than followed `first` |
| Textlines.Textline.SpaceRange | ocrad-0.25/textline.cc:193-220 | finds the range, its mean gap, and runs the passes when the range is non-empty and the mean gap is not negative, giving `RangeSpaced` |
| Textlines.TabAfter | ocrad-0.25/textline.cc:222 | the tabulation after a range: the position moves past the range end, and past the tab when one is inserted, the characters after it staying the same in number |
| Textlines.Textline.InsertTab | ocrad-0.25/textline.cc:222 | inserts the tabulation as `TabAfter` describes, only a space |
| Textlines.SpacedWords | ocrad-0.25/textline.cc:197-220 | both passes over `first..last`: the range end moves by exactly the characters inserted, so the characters after it stay the same in number |
| Textlines.Textline.SpaceWords | ocrad-0.25/textline.cc:197-220 | the two passes over `first..last` give `SpacedWords`, only inserting spaces |
| Textlines.WordStepOf | ocrad-0.25/textline.cc:198-209 | one gap of the word pass: the position moves past the gap and past a space inserted there, the range end moves by the characters inserted, and the tallies never fall |
| Textlines.Textline.WordStep | ocrad-0.25/textline.cc:199-208 | one gap of the word pass gives `WordStepOf`, only inserting a space |
| Textlines.WordsFrom | ocrad-0.25/textline.cc:198-209 | the word pass from `i` on: the range end moves by exactly the characters inserted, and the tallies never fall |
| Textlines.WordsFromKeepsPrefix | ocrad-0.25/textline.cc:198-209 | the word pass from `i` on leaves every character up to `i` in place |
| Textlines.AboveFrom | ocrad-0.25/textline.cc:213-219 | the threshold pass from `i` on: the range end moves by exactly the characters inserted |
| Textlines.AboveFromKeepsPrefix | ocrad-0.25/textline.cc:213-219 | the threshold pass from `i` on leaves every character up to `i` in place |
| Textlines.Textline.SpaceAbove | ocrad-0.25/textline.cc:213-219 | the threshold pass gives `AboveFrom`, only inserting spaces |
| Textlines.Textline.AboveStep | ocrad-0.25/textline.cc:214-218 | one gap of the threshold pass keeps what remains of `AboveFrom` unchanged, and the position moves on |
| Textlines.TextCount | ocrad-0.25/textline.cc:240-241 | the number of characters that are not spaces is at most the length |
| Textlines.Textline.TextTotals | ocrad-0.25/textline.cc:238-241 | the count and the sum of a measure over the non-space characters after the initials |
| Textlines.Textline.Totals | ocrad-0.25/textline.cc:274-277 | the count and the sum of a measure over every character after the initials |
| Textlines.Textline.MeanHeight | ocrad-0.25/textline.cc:236-244 | the truncated mean height of the non-space characters after the initials, 0 when there are none |
| Textlines.Textline.MeanWidth | ocrad-0.25/textline.cc:247-256 | the exact mean width of those characters, 0 when there are none |
| Textlines.Textline.MeanHCenter | ocrad-0.25/textline.cc:272-280 | the truncated mean horizontal centre of every character after the initials |
| Textlines.Textline.MeanVCenter | ocrad-0.25/textline.cc:283-291 | the truncated mean vertical centre of every character after the initials |
| Textlines.Textline.MeanGapWidth | ocrad-0.25/textline.cc:259-269 | the mean gap between positions `first..last`, a negative `last` meaning the last character |
| Textlines.MeansOfSpaces | ocrad-0.25/textline.cc:242-255 | with only spaces after the initials, the mean height and the mean width are 0 |
| Textlines.TextCountZero | ocrad-0.25/textline.cc:240-242 | there is no text exactly when every character is a space |
| Textlines.MeanHeightWithin | ocrad-0.25/textline.cc:236-244 | the mean height lies between the least and the greatest height of the text |
| Textlines.GapSumNonNegative | ocrad-0.25/textline.cc:264-265 | overlapping characters count as gap 0, so the gap sum is never negative |
| Textlines.MeanGapNonNegative | ocrad-0.25/textline.cc:259-269 | the mean gap is at least 0, and is 0 when `last <= first` |
| Textlines.VerifiedInitials | ocrad-0.25/textline.cc:101-106 | the prefix is shortened past every initial no taller than twice the mean height, and stops at one that is taller |
| Textlines.Textline.VerifyBigInitials | ocrad-0.25/textline.cc:101-106 | the prefix becomes `VerifiedInitials`, recomputing the mean height at each step |
| Textlines.Kept | ocrad-0.25/textline.cc:368-382 | after a last-first deletion the line holds as many characters as the mask keeps, and the prefix stays within it |
| Textlines.DeletionStep | ocrad-0.25/textline.cc:368-371 | one step of a last-first deletion loop keeps the state, or deletes the character at `i` and adjusts the prefix as `delete_character` does |
| Textlines.DecisionStep | ocrad-0.25/textline.cc:375-382 | one step of the rewriting loop puts in the rewritten character, then keeps or deletes it |
| Textlines.UnbrokenStep | ocrad-0.25/textline.cc:408-411 | one step of the broken-piece loop, decided on the line as it stands, agrees with the mask of the original line |
| Textlines.DespaceStep | ocrad-0.25/textline.cc:417-420 | one step of the space loop, decided on the line as it stands, agrees with the mask of the original line |
| Textlines.SurplusSpace | ocrad-0.25/textline.cc:418-419 | on the line the loop has left, a space is first, last or after a space exactly when the mask drops it |
| Textlines.SpaceTail | ocrad-0.25/textline.cc:418-419 | nothing of the line from `i` on is kept exactly when it holds no text |
| Textlines.ModifiedCount | ocrad-0.25/textline.cc:371-381 | `modified` is set exactly when fewer characters are kept than there were |
| Textlines.KeptAll | ocrad-0.25/textline.cc:386 | a mask that erases nothing leaves the rewritten line and its prefix |
| Textlines.KeptIs | ocrad-0.25/textline.cc:368-382 | a deletion leaves the kept characters, and the prefix counts the kept initials |
| Textlines.Unbroken | ocrad-0.25/textline.cc:406-412 | the broken-piece pass never lengthens the line, keeps the prefix within it, and leaves only characters that were there |
| Textlines.Despaced | ocrad-0.25/textline.cc:415-421 | the space pass never lengthens the line and keeps the prefix within it |
| Textlines.UnbrokenIs | ocrad-0.25/textline.cc:406-412 | the broken-piece pass leaves exactly the characters its mask keeps |
| Textlines.DespacedIs | ocrad-0.25/textline.cc:415-421 | the space pass leaves exactly the characters its mask keeps |
| Textlines.HeightKeep | ocrad-0.25/textline.cc:369-370 | same height keeps spaces and the characters whose height is `similar(…,10,2)` to the median |
| Textlines.EmptiedKeep | ocrad-0.25/textline.cc:378-381 | a character goes exactly when it had guesses, the filter emptied them, and deleting is on |
| Textlines.BrokenKeep | ocrad-0.25/textline.cc:408-411 | a character goes exactly when it has no guesses and overlaps the columns of the one before it |
| Textlines.SpaceKeep | ocrad-0.25/textline.cc:417-420 | a space stays exactly when it follows a non-space and some non-space comes after it |
| Textlines.ClassFiltered | ocrad-0.25/textline.cc:379 | every character with the class filter applied to its guesses |
| Textlines.UserFilteredChars | ocrad-0.25/textline.cc:397 | every character with the user filter applied to its guesses |
| Textlines.Textline.MedianHeight | ocrad-0.25/textline.cc:363-367 | the median of the histogram of the heights of the non-space characters |
| Textlines.Textline.DeleteDissimilar | ocrad-0.25/textline.cc:368-371 | deletes, last first, exactly the non-space characters whose height is not about the median; `modified` says whether any went |
| Textlines.Textline.FilterCharacters | ocrad-0.25/textline.cc:375-400 | gives each character with guesses its rewritten guesses and deletes it when they are empty and deleting is on; `modified` says whether any went |
| Textlines.Textline.ReplaceCharacter | ocrad-0.25/textline.cc:379-397 | replaces character `i` in place, keeping its box |
| Textlines.Textline.JoinBrokenUnrecognizedCharacters | ocrad-0.25/textline.cc:406-412 | the line becomes `Unbroken` of the old one |
| Textlines.UnbrokenKeeps | ocrad-0.25/textline.cc:408-411 | the pass never deletes the first character, nor one with guesses |
| Textlines.Textline.RemoveLeadingTrailingDuplicateSpaces | ocrad-0.25/textline.cc:415-421 | the line becomes `Despaced` of the old one |
| Textlines.DespacedIsClean | ocrad-0.25/textline.cc:415-421 | afterwards no space is first or last and no two spaces are adjacent |
| Textlines.DespacedKeepsText | ocrad-0.25/textline.cc:415-421 | only spaces are removed: every other character stays, and nothing new appears |
| Textlines.DespacedClean | ocrad-0.25/textline.cc:415-421 | a line already clean is left as it is |
| Textlines.SpaceSuffix | ocrad-0.25/textline.cc:417-420 | what the sweep keeps from `i` on has no double spaces and no trailing space, and is empty exactly when only spaces follow |
| Textlines.FilteredLine | ocrad-0.25/textline.cc:358-387 | a class or same-height filter never lengthens the line and keeps the prefix within it |
| Textlines.UserFilteredLine | ocrad-0.25/textline.cc:390-403 | the user filter never lengthens the line and keeps the prefix within it |
| Textlines.Textline.ApplyFilter | ocrad-0.25/textline.cc:358-387 | the line becomes `FilteredLine`: same height deletes by the median; the class filters rewrite every character and delete the emptied ones (except under `upper_num_mark`, which joins broken pieces); spaces are tidied when something was deleted |
| Textlines.Textline.ApplyUserFilter | ocrad-0.25/textline.cc:390-403 | the line becomes `UserFilteredLine`: every character is rewritten, the emptied ones are deleted under `discard`, broken pieces are removed under `mark`, and spaces are tidied when something was deleted |
| Textlines.UniformHeightHist | ocrad-0.25/textline.cc:363-366 | when every non-space character has height `h`, all samples fall in bucket `h` |
| Textlines.SameHeightKeepsUniformLine | ocrad-0.25/textline.cc:361-372 | a line whose text all has one height loses nothing to the same-height filter |
| Textlines.NonRemovingFilterKeepsLine | ocrad-0.25/textline.cc:375-382 | a class filter that never removes keeps every character and the prefix |
| Textlines.LeavingUserFilterKeepsLine | ocrad-0.25/textline.cc:393-402 | a user filter that neither discards nor marks keeps every character and the prefix |
| Feats.RunsFrom | ocrad-0.25/feats.cc:47-55 | the scan from index `k` records at most one run per pixel left, and none when no run is open and every pixel left is white |
| Feats.RunsFromUnfold | ocrad-0.25/feats.cc:49-54 | one pixel of the scan: a run opens at a black pixel and closes at a white one or at the end of the line |
| Feats.RunsFromSpec | ocrad-0.25/feats.cc:47-55 | the runs the scan records from any point on are maximal black runs, in order and apart, and they cover every black pixel from there |
| Feats.CloseRunSpec | ocrad-0.25/feats.cc:52-54 | the run the scan closes is maximal, and with the runs after it makes the runs from its start |
| Feats.RunsAreMaximal | ocrad-0.25/feats.cc:42-56 | a line's scan lists exactly its maximal runs of black pixels, left to right, disjoint and within the line |
| Feats.RunsCoverBlack | ocrad-0.25/feats.cc:42-56 | a position lies in one of the runs exactly when it is black |
| Feats.ScanLine | ocrad-0.25/feats.cc:48-55 | the inner scan loop of one row or column produces `Runs` of its pixels |
| Feats.ColumnBits | ocrad-0.25/feats.cc:65-67 | the pixels of a column, top to bottom, one per row |
| Feats.RowScans | ocrad-0.25/feats.cc:42-56 | one run list per row of the blob |
| Feats.ColScans | ocrad-0.25/feats.cc:59-73 | one run list per column of the blob |
| Feats.Features.constructor | ocrad-0.25/feats.cc:34-39 | a new feature set holds its blob and has no cache filled |
| Feats.Features.RowScanInit | ocrad-0.25/feats.cc:42-56 | `row_scan` becomes the runs of every row; no other cache changes |
| Feats.Features.ColScanInit | ocrad-0.25/feats.cc:59-73 | `col_scan` becomes the runs of every column; no other cache changes |
| Feats.Features.ScanEveryRow | ocrad-0.25/feats.cc:47-55 | the row loop yields the runs of every row |
| Feats.Features.ScanEveryColumn | ocrad-0.25/feats.cc:64-72 | the column loop yields the runs of every column |
| Feats.Features.SegmentsInRow | ocrad-0.25/feats.h:44-48 | the number of runs of the row, filling `row_scan` on first use and changing nothing else |
| Feats.Features.SegmentsInCol | ocrad-0.25/feats.h:50-54 | the number of runs of the column, filling `col_scan` on first use and changing nothing else |
| Feats.FindRun | ocrad-0.25/feats.cc:211-214 | the first run that holds `x`, or the empty segment when none does |
| Feats.FoundRunIsVSegment | ocrad-0.25/feats.cc:208-215 | the run found is the first of the column that holds the pixel when it is black, and is the empty segment when it is white |
| Feats.Features.VSegment | ocrad-0.25/feats.cc:208-215 | returns the first column run that holds `row` when the pixel is black, else the empty `Csegment` |
| Feats.LongestIndex | ocrad-0.25/feats.cc:89-94 | the index of the longest run, or -1 |
| Feats.LongestIndexIsFirstLongest | ocrad-0.25/feats.cc:89-94 | the index is the first run of largest size, or -1 when every run is empty |
| Feats.Representative | ocrad-0.25/feats.cc:87-96 | a row's segment is one of its runs of largest size, or the empty segment |
| Feats.RowSegments | ocrad-0.25/feats.cc:85-97 | one segment per row |
| Feats.RowSegmentsInside | ocrad-0.25/feats.cc:85-97 | each row's segment lies within the blob's columns, or is empty |
| Feats.Features.RowSegmentsOf | ocrad-0.25/feats.cc:82-97 | builds the segment of every row from the row scans |
| Feats.TrimTop | ocrad-0.25/feats.cc:119-120 | the first row of the candidate whose segment is at least two thirds of the width |
| Feats.TrimTopSkipsThin | ocrad-0.25/feats.cc:119-120 | trimming from the top skips exactly the thin rows before the first wide one |
| Feats.TrimBottom | ocrad-0.25/feats.cc:121-122 | the last such row |
| Feats.TrimBottomSkipsThin | ocrad-0.25/feats.cc:121-122 | trimming from the bottom skips exactly the thin rows after the last wide one |
| Feats.Features.Trim | ocrad-0.25/feats.cc:119-122 | the trimming loops give `TrimTop` and `TrimBottom` |
| Feats.ThinRowInExists | ocrad-0.25/feats.cc:129-139 | the margin loop finds a thin row exactly when one exists among the margin rows |
| Feats.Features.ClearRowAbove | ocrad-0.25/feats.cc:126-133 | some row among the `margin` rows above the bar is at most two thirds of the width |
| Feats.Features.ClearRowBelow | ocrad-0.25/feats.cc:134-141 | the same below the bar |
| Feats.Features.CloseCandidate | ocrad-0.25/feats.cc:116-143 | closing a candidate trims it and yields the bar `CloseBar` describes, or none |
| Feats.Features.Accept | ocrad-0.25/feats.cc:123-142 | the trimmed rows and columns become a bar only if `1 <= height <= width` and both margins are clear |
| Feats.CloseBarShape | ocrad-0.25/feats.cc:116-142 | closing yields at most one bar, with `1 <= height <= width`, inside the candidate's rows and columns |
| Feats.Step | ocrad-0.25/feats.cc:104-143 | one row closes at most one bar, returning to the idle state when it does; a candidate still open began at or before the row, and none is left open after the last row |
| Feats.ScanBars | ocrad-0.25/feats.cc:100-145 | the scan from row `i` finds at most one bar per row left |
| Feats.ScanBarsUnfold | ocrad-0.25/feats.cc:101-145 | one row of the scan: the bars closed at that row, then those after it |
| Feats.StepShape | ocrad-0.25/feats.cc:104-143 | one row of the scan keeps the candidate's columns within the blob's and closes only bars of the right shape |
| Feats.ScanStep | ocrad-0.25/feats.cc:104-143 | one row closes bars top to bottom, each ending above the rows still to scan |
| Feats.ScanBarsShape | ocrad-0.25/feats.cc:100-145 | every bar the scan finds lies within the blob's rows and columns with `1 <= height <= width`, and the bars come top to bottom, disjoint |
| Feats.AppendWithin | ocrad-0.25/feats.cc:142 | bars within the rows from `top`, then bars within later rows, all lie within the rows from `top` |
| Feats.AppendOrdered | ocrad-0.25/feats.cc:142 | bars above row `next`, then bars from row `next` on, stay top to bottom |
| Feats.TopToBottomInOrder | ocrad-0.25/feats.cc:142 | bars top to bottom lie each above every later one |
| Feats.Features.ScanRows | ocrad-0.25/feats.cc:99-145 | the two-state scan over the rows gives `ScanBars` |
| Feats.Features.RowStep | ocrad-0.25/feats.cc:104-144 | one row of the scan, with the fall-through from state 0 into state 1, is one `Step` |
| Feats.MinWidth | ocrad-0.25/feats.cc:148-150 | the smallest bar width: some bar has it and none is narrower |
| Feats.WiderThanMin | ocrad-0.25/feats.cc:151-152 | flags exactly the bars not of the smallest width |
| Feats.DropNarrowest | ocrad-0.25/feats.cc:151-152 | one pruning round removes every bar of the smallest width and keeps the others in order |
| Feats.Features.SmallestWidth | ocrad-0.25/feats.cc:148-150 | the loop finds `MinWidth` |
| Feats.Features.EraseWidth | ocrad-0.25/feats.cc:151-152 | erasing last first every bar of width `wmin` gives `DropNarrowest` |
| Feats.Features.PruneBars | ocrad-0.25/feats.cc:146-153 | pruning rounds run until at most three bars remain |
| Feats.Prune | ocrad-0.25/feats.cc:146-153 | pruning leaves at most three bars and never more than it was given, and leaves three or fewer untouched |
| Feats.PruneShape | ocrad-0.25/feats.cc:146-153 | after pruning at most 3 bars remain, each one of the bars given and in their order; 3 or fewer are left alone |
| Feats.PruneDropsAllNarrowest | ocrad-0.25/feats.cc:151-152 | widths 10, 10, 4, 4 leave the two bars of width 10 |
| Feats.HBarsOf | ocrad-0.25/feats.cc:99-153 | a blob has at most three horizontal bars |
| Feats.HBarsShape | ocrad-0.25/feats.cc:76-156 | the horizontal bars are at most 3, each with `1 <= height <= width` inside the blob, each above every later one |
| Feats.Features.HBars | ocrad-0.25/feats.cc:76-156 | fills `hbar_` on the first call, scanning the rows if need be; every call returns its size and leaves it as `HBarsOf` |
| Feats.Features.HBar | ocrad-0.25/feats.h:38 | bar `i`, for `i < hbars()`, lies inside the blob and below every earlier bar |
| Feats.RunCount | ocrad-0.25/feats.cc:170-178 | the longest run never falls below the one found so far and exceeds it by no more than the rows left; the bridged count grows by at most one per row |
| Feats.ColumnCount | ocrad-0.25/feats.cc:169-179 | a column's count lies between 0 and the number of interior rows, and a non-zero count is at least two thirds of the limit |
| Feats.VStep | ocrad-0.25/feats.cc:180-201 | one column closes at most one bar, only from the confirmed state, returning to the idle state; the state stays within 0..3 |
| Feats.ScanVBars | ocrad-0.25/feats.cc:167-202 | the scan from column `col` finds at most one bar per column left |
| Feats.VBarsOf | ocrad-0.25/feats.cc:159-205 | a blob has no more vertical bars than columns |
| Feats.ScanVBarsUnfold | ocrad-0.25/feats.cc:167-202 | one column of the scan: the bars closed at that column, then those after it |
| Feats.ScanVBarsStep | ocrad-0.25/feats.cc:180-201 | one column of the scan appends the bars it closes to those found so far, and the rest of the scan follows |
| Feats.VStepShape | ocrad-0.25/feats.cc:180-201 | one column closes at most a bar from its begin column to before or at the current one |
| Feats.ScanVBarsShape | ocrad-0.25/feats.cc:167-202 | every vertical bar spans the blob's rows, has `left <= right` within the columns scanned, and the bars come left to right without overlap |
| Feats.AppendRightOf | ocrad-0.25/feats.cc:198 | a bar that ends before the columns still to scan stays left of every later bar |
| Feats.VBarsShape | ocrad-0.25/feats.cc:159-205 | every vertical bar spans rows `top..bottom`, lies within the blob's columns, and lies left of the next |
| Feats.Features.ColumnRun | ocrad-0.25/feats.cc:169-179 | the longest run of a column, counting white pixels beside a black one, or 0 when without those it falls below two thirds of the limit |
| Feats.Features.DetectVBars | ocrad-0.25/feats.cc:164-202 | the four-state scan over the columns gives `VBarsOf` |
| Feats.Features.ColumnStep | ocrad-0.25/feats.cc:180-201 | one column of the four-state machine is one `VStep` |
| Feats.Features.VBars | ocrad-0.25/feats.cc:159-205 | fills `vbar_` on the first call; every call returns its size and leaves it as `VBarsOf`, with the other caches unchanged |
| Feats.Features.VBar | ocrad-0.25/feats.h:39 | bar `i`, for `i < vbars()`, spans the blob's rows inside its columns and lies right of every earlier bar |

## Left out

- Printing and debug output are not modelled, because they are formatted I/O: `Character::print/dprint/xprint`, `utf8_result`, `Textline::print/dprint/xprint/cmark`, every `show_error`, and the stderr messages of `add_filter` and `add_user_filter`.
- Reading a filter file is not modelled (`fopen`, `my_fgetc`, `my_fgets`, `fclose`, the error text and the line count). The parser takes the lines already read, with comments, blank lines and surrounding white space removed. A failing `fclose` (status 1) is not modelled.
- `Control::add_user_filter` is not modelled. The user filter it would append is held apart from the `Filter` datatype.
- `Ocrad::internal_error` becomes preconditions. Index checks in `insert_guess`, `delete_guess`, `swap_guesses`, `delete_character`, `insert_space` and `blob` are `requires` clauses. So is the requirement that the track be set.
- Copy constructors, assignment and destructors are memory management, so they are not modelled. A `Textline` holds its characters by value (`CharView`) rather than as owned pointers, so pointer aliasing between lines is not modelled.
- `Features::test_*` and the profiles are not modelled. Of the width profile only its maximum is used, and it is a constructor parameter (`wpmax`).
- `Character::recognize1`, `Textline::recognize1`, `Textline::set_track` and `charbox` are not modelled. The track is a datatype of two column functions and a height, given to the line.
- The `UCS::*` character tables are an external collaborator: `Common.UcsTables` is a record of function values passed as a parameter, and nothing is assumed about them.
- `rectangle.h`, `segment.h`, `blob.h` and `character.h` are not part of this model. `Geometry` assumes the following:
  - `h_precedes` compares horizontal centres;
  - `h_overlaps` intersects column ranges;
  - a default `Csegment` is (1, 0), with size 0;
  - `overlaps` needs both segments non-empty;
  - a blob's area counts its black pixels.
- `Rational` is modelled as Dafny's exact `real`. `trunc()` of the non-negative means is `Floor`.
- C++ `int` arithmetic is unbounded here, apart from what the code itself caps: `add_sample` checks against INT_MAX, the position before 0 in `rfind` wraps around (`ToUnsigned`), and integer division truncates (`Div`). `byte_result` truncates to `unsigned char` (`% 256`).
- The global `verbosity` flag is not modelled, because it only controls diagnostic output.
- Iso8859.EscapeOf: `char` is taken to be unsigned, as the escape decoder's `unsigned ch = seq[i]` reads it on such a platform. Where `char` is signed, a byte of 0x80 or more after a backslash is sign-extended and decodes to a negative code. `Set` then rejects the set and `parse_char` the token. The model instead decodes such a byte to itself (128..255). The same holds for Iso8859.Escape, Iso8859.EscapeOther, UserFilters.ReadSetChar, UserFilters.Set.constructor and UserFilterSyntax.CharTokenOf.
- UserFilters.UserFilter.ParseRules: after a syntax error it states only that each code kept its mapping or took the line's; which codes were enabled before the error is not stated.
- UserFilters.UserFilter.constructor: for a rejected file (status 2) the tables are not described, because the program discards such a filter.
