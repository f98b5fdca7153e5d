# Movable Type export to Markdown, in Dafny

This project models the core of `movable_type_to_markdown`, a converter from a Movable
Type export to Markdown files with YAML front matter. The core has two halves. The first
is the nom parsers for the export format:

- the `KEY: value` field reader and its wrappers, such as the author and the date;
- the eight-field entry header (`metadata`);
- the comment block (`comments`, `comment`, `ip`);
- the `BODY:` section;
- the `parse` assembler.

The second half is the Markdown writer (`From<Post>`, `dump`, `path`).

Each parser is a function from the input text to an `Outcome`. An `Outcome` is either
`Ok(rest, value)` or `Err(fault)`. A fault is `Mismatch` (nom's recoverable error) or
`Panic` (an `unwrap` on a failed conversion inside a mapping closure). The two faults are
kept apart because `separated_list0` stops on the first but propagates the second.

The nom combinators the parsers use are modelled in `Nom` from their documented
behaviour:

- `tag`, `space0`, `not_line_ending`, `line_ending`, `newline`, `take_until`;
- `u8`, which is in `Numbers`.

`str::parse::<u8>` is also in `Numbers`. The two chrono formats, `%m/%d/%Y %H:%M:%S` and
`%Y/%m/%d`, are in `Chrono`.

Every reader is paired with a writer of the text it accepts, and a round-trip lemma links
the two:

- field line: `Utils.KeyValueOfLine`
- header: `Metadata.DecodeMetadataText`
- address: `Comments.DecodeIpText`
- comment: `Comments.DecodeCommentText`
- comment block: `Comments.DecodeBlockText`
- body: `Body.RawOf`
- entry: `MovableType.ParsePostText`

In the other direction, a converse lemma recovers the accepted text from a successful
read: `Utils.KeyValueParts`, `Common.DateParts`, `Comments.DecodeIpParts` and
`Chrono.FormatParseFixed`. Failure lemmas state what each parser rejects. The unit tests
of the source files are stated as example lemmas.

The writer `dump` is a method. It appends to a string piece by piece, as the source does,
and is proved equal to the function `Render`. `Render` in turn has a reader, `Unrender`,
and a round-trip lemma over all posts whose title and tags it can delimit. A line-count
lemma gives one line per front-matter field and one per tag.

Files: `text.dfy` and `nom.dfy` hold string facts and combinators (`Text`, `Nom`);
`numbers.dfy` and `chrono.dfy` hold digits, `u8` and dates (`Numbers`, `Chrono`). One
file per source file follows: `utils.dfy`, `author.dfy`, `common.dfy`, `metadata.dfy`,
`comments.dfy`, `body.dfy`, `movable_type.dfy` and `markdown.dfy`.

## Model

| member | source | states |
|---|---|---|
| Nom.Tag | src/movable_type/utils.rs:13 | `tag(t)` succeeds exactly when the input starts with `t`, and the rest is the input after `t` |
| Nom.Space0 | src/movable_type/utils.rs:15 | `space0` never fails; it splits off the longest run of spaces and tabs, so the rest does not start with one |
| Nom.NotLineEnding | src/movable_type/utils.rs:16 | the value holds no CR or LF; the rest is empty or starts with `\n` or `\r\n`; a failure is a mismatch at a `\r` that ends the first line and is not followed by `\n` |
| Nom.NotLineEndingBareReturn | src/movable_type/utils.rs:16 | a `\r` not followed by `\n` makes `not_line_ending` fail |
| Nom.LineEnding | src/movable_type/utils.rs:17 | succeeds exactly on `\n` or `\r\n`, returning it and the text after it |
| Nom.TakeUntil | src/movable_type/comments.rs:60 | on success the value is the text before the first occurrence of the pattern and the rest starts with it; it fails exactly when the pattern does not occur |
| Nom.TakeUntilOf | src/movable_type/body.rs:16 | a text clear of the pattern, followed by the pattern, is split exactly there |
| Nom.Newline | src/movable_type/comments.rs:55 | succeeds exactly on a leading `\n` (not `\r\n`) |
| Nom.TagLine | src/movable_type/comments.rs:26 | `pair(tag(t), newline)` succeeds exactly on `t` followed by `\n` |
| Numbers.U8Prefix | src/movable_type/comments.rs:52 | nom's `u8`: the longest run of digits, its value at most 255; fails on a leading non-digit; the rest does not start with a digit |
| Numbers.U8PrefixOfDecimal | src/movable_type/comments.rs:52 | every byte written in decimal and followed by a non-digit is read back |
| Numbers.U8PrefixOfDigits | src/movable_type/comments.rs:52 | every run of digits worth at most 255, leading zeros included, followed by a non-digit is read as its value, with the non-digit left |
| Numbers.U8PrefixRejectsOverflow | src/movable_type/comments.rs:52 | a run of digits whose value exceeds 255 is rejected |
| Numbers.U8PrefixParts | src/movable_type/comments.rs:52 | a successful read consumed a non-empty run of digits whose value is the byte |
| Numbers.ParseU8 | src/movable_type/metadata.rs:61 | `str::parse::<u8>`: all digits, or `+` and digits; value as read; empty and `+` alone rejected |
| Numbers.ParseU8OfDigits | src/movable_type/metadata.rs:61 | every non-empty run of digits worth at most 255 is accepted with its value, with or without a leading `+` |
| Numbers.ParseU8OfDecimal | src/movable_type/metadata.rs:61 | each byte is parsed back from its decimal text, with or without a leading `+` |
| Numbers.ParseU8RejectsNonDigit | src/movable_type/metadata.rs:61 | a non-digit anywhere (other than a leading `+`) is rejected |
| Numbers.ParseU8RejectsOverflow | src/movable_type/metadata.rs:61 | a value above 255 is rejected, with or without a leading `+` |
| Numbers.ValueOfZeroPad | src/movable_type/common.rs:16 | a zero-padded field of width `w` reads back as the number, for numbers below 10^w |
| Numbers.ZeroPadOfValue | src/movable_type/common.rs:16 | a run of digits is the zero-padded form of its value |
| Chrono.ReadJoin3 | src/movable_type/common.rs:16 | three zero-padded fields joined by a separator are read back |
| Chrono.JoinRead3 | src/movable_type/common.rs:16 | the only text read as three fields is their zero-padded join |
| Chrono.ParseFixed | src/movable_type/common.rs:16 | `%m/%d/%Y %H:%M:%S`: a result is a valid calendar date and time with a four-digit year; text not 19 long is rejected |
| Chrono.ParseFormatFixed | src/movable_type/common.rs:16 | every valid timestamp of a four-digit year is read back from its fixed form |
| Chrono.FormatParseFixed | src/movable_type/common.rs:16 | the format is exact: any text that is read is the fixed form of the value read |
| Chrono.YearText | src/markdown.rs:36 | `%Y`: a year below 10000 is four digits worth the year; a later one is `+` and digits worth the year |
| Chrono.FormatYmd | src/markdown.rs:36 | `%Y/%m/%d` of a four-digit year is ten characters with `/` at positions 4 and 7 |
| Utils.KeyValue | src/movable_type/utils.rs:8-19 | success needs `KEY:` at the start; the value is one line; the rest is a proper suffix of the input; other keys fail with a mismatch |
| Utils.KeyValueOfLine | src/movable_type/utils.rs:13-17 | `KEY:` + blanks + value + `\n` or `\r\n` + rest gives exactly the value and the rest |
| Utils.KeyValueParts | src/movable_type/utils.rs:13-17 | conversely every successful read is of such a line, with the skipped blanks and the terminator as witnesses |
| Utils.KeyValueOtherKey | src/movable_type/utils.rs:13-14 | a different key of the same length, including the same key in another case, fails |
| Utils.KeyValueNeedsTerminator | src/movable_type/utils.rs:16-17 | without a line feed in the input the read fails |
| Utils.KeyValueBareReturn | src/movable_type/utils.rs:16-17 | a value ended by a bare `\r` fails |
| Utils.KeyValueOneLine | src/movable_type/utils.rs:13-17 | a read consumes exactly one line |
| Utils.KeyValueOfFieldLine | src/movable_type/metadata.rs:82-93 | the field line the export writes is read back, by the same reader that common.rs:21-32 and metadata.rs:82-93 repeat |
| Author.Author | src/movable_type/author.rs:5-7 | `author` is `key_value("AUTHOR")`: success needs `AUTHOR:` at the start |
| Author.AuthorOfLine | src/movable_type/author.rs:5-7 | an AUTHOR line is read back with the text after it as the rest |
| Author.AuthorParts | src/movable_type/common.rs:10-12 | every successful read is of an `AUTHOR:` line and the rest follows its terminator |
| Author.AuthorExample | src/movable_type/author.rs:14-19 | `author("AUTHOR: wat-aro\n")` gives `("", "wat-aro")` |
| Author.AuthorRejectsTitle | src/movable_type/common.rs:10-12 | `author("TITLE: x\n")` fails |
| Common.Date | src/movable_type/common.rs:14-19 | a date read is valid with a four-digit year; when the field line reads, it fails exactly when the value is not a timestamp, and then it panics; a field line that does not read is a mismatch |
| Common.DateOfLine | src/movable_type/common.rs:14-19 | the DATE line of every valid timestamp is read back |
| Common.DateParts | src/movable_type/common.rs:14-19 | every successful read is of a DATE line holding the fixed form of the date read |
| Common.DatePanics | src/movable_type/common.rs:16 | a one-line value that is not a timestamp panics |
| Common.DateExample | src/movable_type/common.rs:46-51 | `date("DATE: 09/16/2021 22:09:33\n")` gives 2021-09-16 22:09:33 and `""` |
| Metadata.Title | src/movable_type/metadata.rs:47-49 | `TITLE:` required; the value is one line |
| Metadata.Basename | src/movable_type/metadata.rs:51-53 | `BASENAME:` required; the value is one line |
| Metadata.Status | src/movable_type/metadata.rs:55-57 | `STATUS:` required; the value is one line |
| Metadata.Image | src/movable_type/metadata.rs:78-80 | `IMAGE:` required; the value is one line, kept verbatim |
| Metadata.Flag | src/movable_type/metadata.rs:59-69 | it succeeds only where the field reads, with the same rest, and yields whether the value parsed as `u8` is not zero; when the field reads, it fails exactly when the value is not a byte, and then it panics |
| Metadata.AllowComments | src/movable_type/metadata.rs:59-63 | `ALLOW COMMENTS:` required; the rest is the field's; the value is whether the field's text parsed as `u8` is not zero; a field that reads but is not a byte panics, anything else is a mismatch |
| Metadata.ConvertBreaks | src/movable_type/metadata.rs:65-69 | `CONVERT BREAKS:` required; the rest is the field's; the value is whether the field's text parsed as `u8` is not zero; a field that reads but is not a byte panics, anything else is a mismatch |
| Metadata.FlagOfLine | src/movable_type/metadata.rs:59-69 | a byte value gives `value != 0` |
| Metadata.FlagOfText | src/movable_type/metadata.rs:59-69 | `1` gives true and `0` gives false |
| Metadata.FlagPanics | src/movable_type/metadata.rs:61 | a one-line value that is not a byte panics |
| Metadata.FlagRejectsYes | src/movable_type/metadata.rs:61 | `yes` panics |
| Metadata.FlagRejects256 | src/movable_type/metadata.rs:67 | `256` panics |
| Metadata.Decode | src/movable_type/metadata.rs:18-41 | a header read has a valid date and one-line text fields and consumes input; a text not opening with `AUTHOR:` fails |
| Metadata.DecodeMetadataText | src/movable_type/metadata.rs:18-41 | every well-formed header is read back from its eight lines, stopping right after IMAGE |
| Metadata.DecodeEightLines | src/movable_type/metadata.rs:19-26 | a header read consumes exactly eight lines |
| Metadata.DecodeRejectsTitleFirst | src/movable_type/metadata.rs:19-20 | fields are not reordered: a header opening with TITLE fails |
| Metadata.DecodeRequiresImage | src/movable_type/metadata.rs:26 | IMAGE is mandatory: seven good lines without it fail |
| Metadata.TitleExample | src/movable_type/metadata.rs:108-113 | `title("TITLE: Title\n")` gives `("", "Title")` |
| Metadata.BasenameExample | src/movable_type/metadata.rs:115-120 | `basename("BASENAME: Basename\n")` gives `("", "Basename")` |
| Metadata.StatusExample | src/movable_type/metadata.rs:122-127 | `status("STATUS: Publish\n")` gives `("", "Publish")` |
| Metadata.AllowCommentsOnExample | src/movable_type/metadata.rs:129-134 | `ALLOW COMMENTS: 1` gives true |
| Metadata.AllowCommentsOffExample | src/movable_type/metadata.rs:136-141 | `ALLOW COMMENTS: 0` gives false |
| Metadata.ConvertBreaksOnExample | src/movable_type/metadata.rs:143-148 | `CONVERT BREAKS: 1` gives true |
| Metadata.ConvertBreaksOffExample | src/movable_type/metadata.rs:150-155 | `CONVERT BREAKS: 0` gives false |
| Metadata.ImageExample | src/movable_type/metadata.rs:164-169 | the image URL comes back verbatim |
| Metadata.DecodeExample | src/movable_type/metadata.rs:171-201 | the eight-line header of the test decodes to the expected record with nothing left |
| Metadata.DecodeTextExample | src/movable_type/metadata.rs:171-201 | the same, stated on the literal lines of the test |
| Comments.DecodeIp | src/movable_type/comments.rs:49-57 | `IP: ` is required; a read consumes input; failures are mismatches |
| Comments.DecodeIpText | src/movable_type/comments.rs:49-57 | every address written in decimal is read back, stopping after its `\n` |
| Comments.DecodeIpParts | src/movable_type/comments.rs:49-57 | every successful read is of `IP: ` + four runs of digits joined by `.` + `\n`, whose values are the bytes |
| Comments.DecodeIpRejectsNonNumber | src/movable_type/comments.rs:50-52 | an address that does not start with a digit, including the empty one, fails with a mismatch |
| Comments.DecodeIpRejectsFirst | src/movable_type/comments.rs:52 | a first component above 255, or a `.` where it should be, fails |
| Comments.DecodeIpRejectsLast | src/movable_type/comments.rs:52 | a last component above 255 fails |
| Comments.CommentBody | src/movable_type/comments.rs:59-61 | a body read is followed, in the input, by a text starting with `-----`; a failure is a mismatch on a text without `-----` |
| Comments.CommentBodyIsFirst | src/movable_type/comments.rs:59-61 | the second alternative is dead: `body` equals `take_until("-----")` |
| Comments.DecodeComment | src/movable_type/comments.rs:32-47 | a comment read opens with `COMMENT`, has a body clear of `-----` and a rest that starts with `-----`, a one-line author and a valid date |
| Comments.DecodeCommentText | src/movable_type/comments.rs:32-47 | every well-formed comment, followed by a delimiter, is read back and the delimiter left |
| Comments.Separator | src/movable_type/comments.rs:27 | the separator is exactly the line `-----` |
| Comments.Closing | src/movable_type/comments.rs:28 | the closing delimiter is exactly the line `--------` |
| Comments.MoreComments | src/movable_type/comments.rs:27 | the repeated tail of `separated_list0`: it stops where the separator or the next comment fails; all bodies are clear; only a panic propagates |
| Comments.CommentList | src/movable_type/comments.rs:27 | `separated_list0`: an empty list consumes nothing; all bodies are clear; only a panic propagates |
| Comments.Decode | src/movable_type/comments.rs:25-30 | a block read opens with `-----\n` and consumes input; other text fails with a mismatch |
| Comments.MoreCommentsText | src/movable_type/comments.rs:27 | well-formed comments, each preceded by a separator, are read in order |
| Comments.CommentListText | src/movable_type/comments.rs:27 | separated well-formed comments are read in document order, stopping before the closing delimiter |
| Comments.DecodeBlockText | src/movable_type/comments.rs:25-30 | every block of well-formed comments is read back in order, with the text after the closing line as the rest |
| Comments.IpExample | src/movable_type/comments.rs:155-161 | `ip("IP: 127.0.0.1\n")` gives `IP(127, 0, 0, 1)` and `""` |
| Comments.CommentExample | src/movable_type/comments.rs:127-153 | the first test comment followed by `--------\n` is read with `--------\n` left |
| Comments.CommentTextExample | src/movable_type/comments.rs:127-153 | the same, stated on the literal lines of the test |
| Comments.EmptyBlockExample | src/movable_type/comments.rs:70-79 | `-----\n--------\n` gives no comments and `""` |
| Comments.BlockExample | src/movable_type/comments.rs:81-125 | the two-comment block of the test gives both comments in order and `""` |
| Comments.BlockTextExample | src/movable_type/comments.rs:81-125 | the same, stated on the literal lines of the test |
| Body.Raw | src/movable_type/body.rs:14-16 | the text is the header, the raw body and the rest; the raw body is clear of `-----` and the rest starts with it; without `-----\n` first, a mismatch |
| Body.Decode | src/movable_type/body.rs:13-19 | it succeeds exactly when the raw text is found and parses; the rest and the document are those of the raw text |
| Body.RawOf | src/movable_type/body.rs:14-16 | a raw text clear of `-----`, after the header and before a delimiter, is read exactly and the delimiter is left |
| Body.RawNeedsDelimiter | src/movable_type/body.rs:16 | without `-----` after the marker, the body fails |
| Body.RawNeedsMarker | src/movable_type/body.rs:16 | a delimiter line not followed by `BODY:\n` fails |
| Body.DecodeOf | src/movable_type/body.rs:15-18 | a raw text that parses gives its document, with the delimiter left |
| Body.DecodeRejects | src/movable_type/body.rs:15-17 | a raw text the document parser rejects makes the body fail |
| MovableType.Parse | src/movable_type.rs:19-24 | one post at most; a post exactly when the header reads and then the body reads from the text after it; its fields are those two values |
| MovableType.ParsePostText | src/movable_type.rs:19-24 | a well-formed entry followed by anything beginning with `-----` gives the one post of that header and document |
| MovableType.ParseRejectsBody | src/movable_type.rs:21 | a body the document parser rejects makes `parse` panic |
| MovableType.ParseNeedsHeader | src/movable_type.rs:20-21 | the body is read after the header: an entry opening with its body panics |
| Markdown.FromPost | src/markdown.rs:13-27 | title, date as published, categories as tags in order, and body are copied unchanged |
| Markdown.Dump | src/markdown.rs:30-47 | the string built by appending the pieces is `Render(m)`, the front matter (`---`, title, date, the `tags:` block when there are tags, `---`, a blank line) and then the body and a line feed |
| Markdown.AppendTagLines | src/markdown.rs:40-42 | the loop over the tags appends one `  - tag` line per tag, in order |
| Markdown.PathInjective | src/markdown.rs:49-51 | `Path`, `directory/title.md`, sends two posts to the same file in a directory exactly when their titles are equal |
| Markdown.TagLinesCons | src/markdown.rs:40-42 | the tag lines of a list are the first tag's line followed by the lines of the others |
| Markdown.TagLinesCount | src/markdown.rs:40-42 | one line per tag when no tag holds a line feed |
| Markdown.Unrender | src/markdown.rs:30-47 | a reader of the written file: a read is of the whole text and gives a title clear of its closing `"` and line feed |
| Markdown.ReadYmdOf | src/markdown.rs:34-37 | `YYYY/MM/DD` of a valid date of a four-digit year is read back as year, month and day |
| Markdown.ReadTagItemsOf | src/markdown.rs:40-42 | the tag lines are read back as the tags in order |
| Markdown.ReadTagsOf | src/markdown.rs:38-43 | the `tags:` block is read back as the tags, and its absence as no tags |
| Markdown.UnrenderRender | src/markdown.rs:30-47 | the written file gives back title, date, tags and body, when the title cannot close its quotes early and each tag is one line |
| Markdown.RenderLines | src/markdown.rs:32-46 | the file has six lines plus the body's, and one more for `tags:` and one per tag when there are tags |

## Left out

- The command-line program in src/main.rs (argument handling and printing) is not part of this model.
- `Dom::parse`, the HTML parser that body.rs calls, is a function parameter `parseDom` of `Body.Decode` and `MovableType.Parse`. Body.rs's own test depends on that parser's verdict on a sample document, so it is not stated.
- Rust's borrowed slices are modelled as substrings. The model does not say that a value is a slice of the input, only where it sits in the input.
- nom's streaming `Incomplete` (from `streaming::tag` in metadata.rs and comments.rs) is merged with a recoverable error, `Mismatch`. In these grammars the first only arises where the whole parse fails anyway.
- Each `unwrap` that panics is the fault `Panic` inside a parser. In `MovableType.Parse` it is `None`. Nothing models the crash itself.
- Chrono.ParseFixed: chrono's `datetime_from_str` is more lenient than the model's reader, which reads only the exact nineteen-character form and rejects a second of 60. chrono also accepts fields without leading zeros, whitespace before each numeric field, any run of whitespace (or none) for the space of the format, a year with a leading `+` or `-` and any number of digits, and a leap second written as 60. So `"03/14/2015  09:26:53"` and `"01/01/+2015 00:00:00"` and `"01/01/+10000 00:00:00"` are read by chrono, while `ParseFixed` returns `None` and `Common.Date` panics on them.
- Chrono.YearText: years above 9999 are written with a sign, as chrono does. The model's reader does not read them (chrono's does), so the round trips require a four-digit year.
- Numbers.U8Prefix: nom's `u8` checks overflow digit by digit. The model checks the value of the whole run of digits, which accepts and rejects the same texts.
- Comments.MoreComments: nom's `separated_list0` has an infinite-loop guard that fails when the separator consumes nothing. It cannot be reached here, because the separator `pair(tag("-----"), newline)` (comments.rs:27) consumes six characters whenever it succeeds, and the model leaves the guard out.
- There is no `CATEGORY` field in metadata.rs. So `Markdown.FromPost` reads its input from `Markdown.SourcePost`, a record of title, date, categories and raw body. markdown.rs reads fields that this version of the header and body does not have.
- src/movable_type.rs declares a module `key_value` that is not part of this model. `parse` never reads the comment block, and the model does not connect `Comments.Decode` to it.
- The delimiter after the body is left unconsumed, and `parse` always returns one post. Both are as the code does, not a reading of the whole export.
- Markdown.Unrender: no such reader exists in the source. It is the model's partner for `Render`, and it reads only the files `dump` writes. `dump` does not escape a title, so a title holding `"` followed by a line feed does not read back.
- The test examples are stated on constructed values (for instance `BlockText([First(), Second()])`), and the multi-line ones again on their texts written as a concatenation of their lines, rather than as one literal.
