/**
 The test suite's format sniffer: given a stream or some other value, take a
 text sample (the first 1000 bytes of a stream, or the value's `to_s`) and
 classify it by an ordered list of unanchored regular expressions as RDF/XML,
 Turtle or N-Triples.
 */
module DetectFormat {
  import opened Patterns

  datatype Option<T> = None | Some(value: T)

  /** The format symbols the sniffer names: `:rdfxml`, `:rdfa`, `:ttl` and `:ntriples`. */
  datatype Format = RdfXml | RdfA | Turtle | NTriples

  /** One `when` arm of the `case`: a pattern and the format it selects. */
  datatype Arm = Arm(pattern: Pattern, format: Format)

  /** `/<\w+:RDF/`: a prefixed `RDF` start tag such as `<rdf:RDF`. */
  const PrefixedRdfTag := PrefixedTag("RDF")

  /** `/<RDF/`: an unprefixed `RDF` start tag. */
  const BareRdfTag := Literal("<RDF", false)

  /** `/@prefix/i`: a Turtle prefix directive, in any letter case. */
  const TurtleDirective := Literal("@prefix", true)

  /** The live arms, in source order. The `/<html/i` arm for `:rdfa` is commented out. */
  const Arms: seq<Arm> := [Arm(PrefixedRdfTag, RdfXml), Arm(BareRdfTag, RdfXml), Arm(TurtleDirective, Turtle)]

  /** The `else` branch. */
  const Fallback := NTriples

  /** How many bytes of a stream the sniffer reads. */
  const SampleSize := 1000

  // ---------------------------------------------------------------------------
  // Classification: the ordered `case`

  ghost predicate NoArmMatches(arms: seq<Arm>, s: seq<char>) {
    forall k :: 0 <= k < |arms| ==> !Denotes(arms[k].pattern, s)
  }

  /** Arm `k` matches `s` and no earlier arm does. */
  ghost predicate IsFirstMatch(arms: seq<Arm>, s: seq<char>, k: int) {
    0 <= k < |arms| && Denotes(arms[k].pattern, s) &&
    forall j :: 0 <= j < k ==> !Denotes(arms[j].pattern, s)
  }

  /** Ruby's `case s when ... then ... else ... end` over regex arms. */
  function SelectFormat(arms: seq<Arm>, s: seq<char>, fallback: Format): (f: Format)
    ensures f == fallback || exists k :: 0 <= k < |arms| && arms[k].format == f
  {
    if arms == [] then fallback
    else if Matches(arms[0].pattern, s) then arms[0].format
    else SelectFormat(arms[1..], s, fallback)
  }

  /** The `case` picks the format of the first arm that matches, or the fallback when none does. */
  lemma {:induction false} SelectFormatIsFirstMatch(arms: seq<Arm>, s: seq<char>, fallback: Format)
    ensures || (exists k :: IsFirstMatch(arms, s, k) && SelectFormat(arms, s, fallback) == arms[k].format)
            || (NoArmMatches(arms, s) && SelectFormat(arms, s, fallback) == fallback)
  {
    if arms == [] {
    } else if Matches(arms[0].pattern, s) {
      assert IsFirstMatch(arms, s, 0);
    } else {
      var rest := arms[1..];
      SelectFormatIsFirstMatch(rest, s, fallback);
      if k :| IsFirstMatch(rest, s, k) && SelectFormat(rest, s, fallback) == rest[k].format {
        assert IsFirstMatch(arms, s, k + 1);
      } else {
        assert NoArmMatches(arms, s) by {
          forall k | 0 <= k < |arms| ensures !Denotes(arms[k].pattern, s) {
            if k > 0 {
              assert arms[k] == rest[k - 1];
            }
          }
        }
      }
    }
  }

  /**
   Classifies a sample. `None` is the `nil` that `read` returns at end of
   stream: no regex matches `nil`, so it takes the `else` branch.
   */
  function Classify(sample: Option<seq<char>>): (f: Format)
    ensures f != RdfA
    ensures f == RdfXml <==>
      sample.Some? && (Denotes(PrefixedRdfTag, sample.value) || Denotes(BareRdfTag, sample.value))
    ensures f == Turtle <==>
      sample.Some? && !Denotes(PrefixedRdfTag, sample.value) && !Denotes(BareRdfTag, sample.value) &&
      Denotes(TurtleDirective, sample.value)
    ensures f == NTriples <==>
      sample.None? ||
      (!Denotes(PrefixedRdfTag, sample.value) && !Denotes(BareRdfTag, sample.value) &&
       !Denotes(TurtleDirective, sample.value))
  {
    match sample
    case None => Fallback
    case Some(s) =>
      ArmsOutcome(s);
      SelectFormat(Arms, s, Fallback)
  }

  /** The first-match rule spelled out for the three live arms. */
  lemma ArmsOutcome(s: seq<char>)
    ensures SelectFormat(Arms, s, Fallback) == RdfXml <==>
      Denotes(PrefixedRdfTag, s) || Denotes(BareRdfTag, s)
    ensures SelectFormat(Arms, s, Fallback) == Turtle <==>
      !Denotes(PrefixedRdfTag, s) && !Denotes(BareRdfTag, s) && Denotes(TurtleDirective, s)
    ensures SelectFormat(Arms, s, Fallback) == NTriples <==>
      !Denotes(PrefixedRdfTag, s) && !Denotes(BareRdfTag, s) && !Denotes(TurtleDirective, s)
  {
    SelectFormatIsFirstMatch(Arms, s, Fallback);
    assert Arms[0] == Arm(PrefixedRdfTag, RdfXml);
    assert Arms[1] == Arm(BareRdfTag, RdfXml);
    assert Arms[2] == Arm(TurtleDirective, Turtle);
  }

  // ---------------------------------------------------------------------------
  // Sampling

  /** An `IO` or `StringIO`: its bytes, one `char` per byte, and its read position. */
  class Stream {
    var content: seq<char>
    var pos: nat

    constructor (content: seq<char>, pos: nat)
      ensures this.content == content && this.pos == pos
    {
      this.content := content;
      this.pos := pos;
    }

    /** `rewind`: moves the position back to the start. */
    method Rewind()
      modifies this`pos
      ensures pos == 0
    {
      pos := 0;
    }

    /**
     `read(length)`: up to `length` bytes from the position on, advancing the
     position past them; `nil` when a positive length meets the end of the stream.
     */
    method Read(length: nat) returns (data: Option<seq<char>>)
      modifies this`pos
      ensures data.None? <==> 0 < length && |content| <= old(pos)
      ensures data.Some? ==>
        var start := if old(pos) < |content| then old(pos) else |content|;
        var stop := if old(pos) + length < |content| then old(pos) + length else |content|;
        data.value == content[start..stop]
      ensures pos == old(pos) + (if data.Some? then |data.value| else 0)
    {
      if 0 < length && |content| <= pos {
        data := None;
      } else {
        var start := if pos < |content| then pos else |content|;
        var stop := if pos + length < |content| then pos + length else |content|;
        data := Some(content[start..stop]);
        pos := pos + (stop - start);
      }
    }
  }

  /** What the sniffer is handed: a stream, or any other value through its `to_s`. */
  datatype Input = FromStream(io: Stream) | FromValue(text: seq<char>)

  /** What `read(SampleSize)` returns right after `rewind`. */
  function LeadingSample(content: seq<char>): (r: Option<seq<char>>)
    ensures r.None? <==> content == []
    ensures r.Some? ==> r.value <= content
    ensures r.Some? ==> |r.value| == if |content| < SampleSize then |content| else SampleSize
  {
    if content == [] then None
    else if |content| <= SampleSize then Some(content)
    else Some(content[..SampleSize])
  }

  /**
   `detect_format`: a stream is rewound, sampled and rewound again, so it keeps
   its content and ends at position 0 whatever its position was before; any
   other value is classified by its whole text.
   */
  method Detect(input: Input) returns (f: Format)
    modifies if input.FromStream? then {input.io} else {}
    ensures input.FromStream? ==>
      && input.io.content == old(input.io.content)
      && input.io.pos == 0
      && f == Classify(LeadingSample(input.io.content))
    ensures input.FromValue? ==> f == Classify(Some(input.text))
  {
    var sample: Option<seq<char>>;
    match input {
      case FromStream(io) =>
        io.Rewind();
        sample := io.Read(SampleSize);
        assert io.content[0..|io.content|] == io.content;
        assert sample == LeadingSample(io.content);
        io.Rewind();
      case FromValue(text) =>
        sample := Some(text);
    }
    f := Classify(sample);
  }

  // ---------------------------------------------------------------------------
  // Properties

  /** An empty stream reads as `nil` and is N-Triples. */
  lemma EmptyStreamIsNTriples()
    ensures Classify(LeadingSample([])) == NTriples
  {
  }

  /** Bytes past the sample never change a stream's classification. */
  lemma TailIsIgnored(content: seq<char>, tail: seq<char>)
    requires SampleSize <= |content|
    ensures Classify(LeadingSample(content + tail)) == Classify(LeadingSample(content))
  {
    assert LeadingSample(content + tail).value == content[..SampleSize];
    assert LeadingSample(content).value == content[..SampleSize];
  }

  /** Text added before or after a sample classified as RDF/XML keeps it RDF/XML. */
  lemma {:induction false} ContextKeepsRdfXml(before: seq<char>, s: seq<char>, after: seq<char>)
    requires Classify(Some(s)) == RdfXml
    ensures Classify(Some(before + s + after)) == RdfXml
  {
    if Denotes(PrefixedRdfTag, s) {
      DenotesInContext(PrefixedRdfTag, before, s, after);
    } else {
      DenotesInContext(BareRdfTag, before, s, after);
    }
  }

  /** Text added around a sample that some arm matched never sends it to the fallback. */
  lemma {:induction false} ContextKeepsRecognised(before: seq<char>, s: seq<char>, after: seq<char>)
    requires Classify(Some(s)) != NTriples
    ensures Classify(Some(before + s + after)) != NTriples
  {
    if Classify(Some(s)) == RdfXml {
      ContextKeepsRdfXml(before, s, after);
    } else {
      DenotesInContext(TurtleDirective, before, s, after);
    }
  }

  /** Appending to a stream classified as RDF/XML keeps it RDF/XML: its old sample is a prefix of the new one. */
  lemma {:induction false} StreamAppendKeepsRdfXml(content: seq<char>, more: seq<char>)
    requires Classify(LeadingSample(content)) == RdfXml
    ensures Classify(LeadingSample(content + more)) == RdfXml
  {
    var a := LeadingSample(content).value;
    var b := LeadingSample(content + more).value;
    assert b == a + b[|a|..] by {
      assert a == content[..|a|];
      assert b == (content + more)[..|b|];
    }
    ContextKeepsRdfXml([], a, b[|a|..]);
    assert [] + a + b[|a|..] == b;
  }

  /** A sample with neither `<` nor `@` matches no arm. */
  lemma {:induction false} NoMarkersIsNTriples(s: seq<char>)
    requires '<' !in s && '@' !in s
    ensures Classify(Some(s)) == NTriples
  {
    if Denotes(PrefixedRdfTag, s) {
      DenotesNeedsLead(PrefixedRdfTag, s);
    }
    if Denotes(BareRdfTag, s) {
      DenotesNeedsLead(BareRdfTag, s);
    }
    if Denotes(TurtleDirective, s) {
      DenotesNeedsLead(TurtleDirective, s);
    }
  }

  /**
   A tag past the first 1000 bytes is seen in a value's text but not in a
   stream holding the same text.
   */
  lemma LateTagIsMissedInStream()
    ensures var text := seq(SampleSize, _ => ' ') + "<RDF";
      Classify(Some(text)) == RdfXml && Classify(LeadingSample(text)) == NTriples
  {
    var spaces := seq(SampleSize, _ => ' ');
    var text := spaces + "<RDF";
    assert LiteralAt(text, "<RDF", false, SampleSize);
    assert DenotesAt(BareRdfTag, text, SampleSize);
    assert text[..SampleSize] == spaces;
    NoMarkersIsNTriples(spaces);
  }

  /** A document opening with an XML declaration and `<rdf:RDF` is RDF/XML. */
  lemma {:induction false} TypicalDocumentIsRdfXml(rest: seq<char>)
    ensures Classify(Some("<?xml version=\"1.0\"?>\n" + "<rdf:RDF" + rest)) == RdfXml
  {
    var tag := "<rdf:RDF";
    assert PrefixedTagAt(tag, "RDF", 0, 4);
    assert DenotesAt(PrefixedRdfTag, tag, 0);
    ContextKeepsRdfXml("<?xml version=\"1.0\"?>\n", tag, rest);
  }
}
