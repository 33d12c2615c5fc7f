# detect_format: the RDF/XML test suite's format sniffer

The RDF/XML reader's test helper decides what format an input is in. The helper is `detect_format`. It first takes a text sample:

- an `IO` or `StringIO` is rewound, read for at most 1000 bytes, and rewound again;
- any other value is turned into text with `to_s`.

It then runs a Ruby `case` over three unanchored regular expressions, in order:

1. `/<\w+:RDF/` gives `:rdfxml`;
2. `/<RDF/` gives `:rdfxml`;
3. `/@prefix/i` gives `:ttl`;
4. anything else falls to the `else` branch and gives `:ntriples`.

A fourth arm, `/<html/i` for `:rdfa`, is commented out.

This project models the helper in two modules:

- `Patterns` (`patterns.dfy`) covers the two regex shapes. A literal, optionally case-insensitive, is `Literal`. The prefixed-tag shape `<\w+:local` is `PrefixedTag`. Each shape has a declarative meaning, `Denotes`, which says a match starts at some index. Each also has a left-to-right scanning matcher, `Matches`, which reads `\w+` as a greedy `\w*` run (`WordRun`) that must be non-empty. The two are proved equal. `\w` is ASCII `[A-Za-z0-9_]` and `/i` is ASCII case folding.
- `DetectFormat` (`detect_format.dfy`) covers the rest:
  - the ordered `case` as a list of arms, `SelectFormat`, proved to pick the first matching arm;
  - the classification of a sample, `Classify`;
  - a `Stream` class with `content` and `pos` fields; `Rewind` and `Read` change only `pos`, and `content` stays as it is;
  - the input datatype `Input`, whose two cases are the `stream.is_a?(IO) || stream.is_a?(StringIO)` test: `FromStream` for a stream, `FromValue` for any other value through its `to_s`;
  - the helper itself, `Detect`, which rewinds, reads and rewinds a stream.

The `nil` that `read(1000)` returns on an empty stream is `None`. No regex matches `nil`, so it is classified `NTriples`.

## Model

| member | source | states |
|---|---|---|
| Patterns.WordRun | spec/spec_helper.rb:50 | the greedy `\w*` run that `\w+` consumes (the matcher then requires it to be non-empty): every character before the result is a word character, and the next character, if there is one, is not |
| Patterns.MatchesHereAgrees | spec/spec_helper.rb:50-53 | the greedy front match of a pattern succeeds exactly when the regex has a match starting at index 0; for `<\w+:RDF`, greedy and backtracking give the same answer because `:` is not a word character |
| Patterns.Matches | spec/spec_helper.rb:50-53 | scanning every start position from the left returns true exactly when the unanchored regex matches somewhere in the text |
| Patterns.DenotesInContext | spec/spec_helper.rb:50-53 | patterns are unanchored: text added before or after a matching string keeps the match |
| Patterns.DenotesNeedsLead | spec/spec_helper.rb:50-53 | every match contains the pattern's first character: `<` for the tag patterns, `@` up to case for the Turtle directive |
| DetectFormat.SelectFormat | spec/spec_helper.rb:49-55 | the `case`/`when` over regex arms returns the fallback or the format of one of the arms; which arm is stated by SelectFormatIsFirstMatch |
| DetectFormat.SelectFormatIsFirstMatch | spec/spec_helper.rb:49-55 | the `case` returns the format of the first arm whose regex matches and no earlier arm does, or the `else` format when none matches |
| DetectFormat.ArmsOutcome | spec/spec_helper.rb:49-55 | for the three live arms: RDF/XML exactly when either RDF pattern matches; Turtle exactly when neither does and `@prefix` matches ignoring case; N-Triples exactly when none matches |
| DetectFormat.Classify | spec/spec_helper.rb:49-55 | a sample is `RdfXml` iff it holds `<`, word characters and `:RDF`, or holds `<RDF`; it is `Turtle` iff neither holds and `@prefix` occurs in any case, so RDF/XML outranks Turtle; otherwise, including a `nil` sample, it is `NTriples`; `RdfA` is never returned |
| DetectFormat.Stream.Rewind | spec/spec_helper.rb:43-45 | the position becomes 0 and the content is untouched |
| DetectFormat.Stream.Read | spec/spec_helper.rb:44 | `read(length)` gives `nil` exactly when a positive length meets the end of the stream; otherwise it returns the bytes from the position up to `length` of them and advances the position by their count |
| DetectFormat.LeadingSample | spec/spec_helper.rb:43-44 | what `read(1000)` returns after `rewind`: `nil` for an empty stream, otherwise a prefix of the content of length `min(1000, size)` |
| DetectFormat.Detect | spec/spec_helper.rb:40-56 | dispatches on `Input` as line 42 does; a stream keeps its content, is left at position 0 whatever its earlier position, and is classified by its leading 1000 bytes; any other value is classified by its whole text |
| DetectFormat.EmptyStreamIsNTriples | spec/spec_helper.rb:44-54 | an empty stream reads as `nil` and is classified `NTriples` |
| DetectFormat.TailIsIgnored | spec/spec_helper.rb:44 | for a stream of at least 1000 bytes, whatever follows has no effect on the result |
| DetectFormat.ContextKeepsRdfXml | spec/spec_helper.rb:47-51 | text added before or after a value classified `RdfXml` keeps it `RdfXml` |
| DetectFormat.ContextKeepsRecognised | spec/spec_helper.rb:47-53 | text added around a value that some arm matched never turns it into `NTriples` |
| DetectFormat.StreamAppendKeepsRdfXml | spec/spec_helper.rb:42-51 | appending bytes to a stream classified `RdfXml` keeps it `RdfXml`, because the old sample is a prefix of the new one |
| DetectFormat.NoMarkersIsNTriples | spec/spec_helper.rb:49-54 | a sample with neither `<` nor `@` matches no arm and is `NTriples` |
| DetectFormat.LateTagIsMissedInStream | spec/spec_helper.rb:42-51 | 1000 spaces followed by `<RDF` is `RdfXml` as a value's text but `NTriples` as a stream, because the tag lies past the sample |
| DetectFormat.TypicalDocumentIsRdfXml | spec/spec_helper.rb:50 | an XML declaration followed by `<rdf:RDF` and anything else is `RdfXml`, through the prefixed-tag arm |

## Left out

- The RDF/XML reader is not part of this model. Its source is not among the files modelled. Its tests in `spec/reader_spec.rb` run the reader on example documents and check the resulting graphs or the errors it raises; they also check reader discovery and the block and yield interface.
- Load-path setup and the `require`s, including the Nokogiri/REXML choice (spec/spec_helper.rb:1-18), are library loading only.
- The downloaded-URI cache (spec/spec_helper.rb:20-23) is filesystem and network I/O.
- The RSpec configuration (spec/spec_helper.rb:25-29) is test-framework setup.
- The `RDF::Util::File.open_file` override (spec/spec_helper.rb:31-37) is a thin wrapper over `Kernel.open` for file and URL access.
- `to_s` of a value that is not an `IO` or `StringIO` is an input: `FromValue` carries the text it returns.
- Bytes versus characters: a stream's content is a sequence of `char`, one per byte. A multi-byte character cut at byte 1000, and string encodings generally, are not modelled.
- Regex semantics: `\w` is ASCII word characters and `/i` is ASCII case folding. Unicode case folding on non-ASCII text is not modelled.
- `rewind` on a stream that cannot seek (a pipe) raises an error in Ruby. The model treats every stream as seekable.
- `rewind` also resets the stream's line number. The model has no line-number field.
- Errors that `read` can raise (a closed stream, an I/O failure) are not modelled.
