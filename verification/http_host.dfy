/**
  The HTTP half of the TCP sniffer: the request line, the header lines, the
  single Host field, and the early decision on an unfinished request.
 */
module HttpHost {
  import opened Base
  import opened ClientHello

  const CR: Byte := 13
  const LF: Byte := 10
  const SPACE: Byte := 32
  const COLON: Byte := 58

  /** Header-value trimming, port removal and domain normalisation of a Host field. */
  type HostRule = Bytes -> Option<Domain>

  function Method(index: nat): (name: Bytes)
    requires index < 9
  {
    match index
    case 0 => [71, 69, 84]
    case 1 => [80, 79, 83, 84]
    case 2 => [72, 69, 65, 68]
    case 3 => [80, 85, 84]
    case 4 => [68, 69, 76, 69, 84, 69]
    case 5 => [79, 80, 84, 73, 79, 78, 83]
    case 6 => [67, 79, 78, 78, 69, 67, 84]
    case 7 => [80, 65, 84, 67, 72]
    case 8 => [84, 82, 65, 67, 69]
  }

  function Lower(b: Byte): Byte
  {
    if 65 <= b <= 90 then b + 32 else b
  }

  /** `eq_ignore_ascii_case`. */
  predicate SameIgnoringCase(a: Bytes, b: Bytes)
  {
    |a| == |b| && forall i :: 0 <= i < |a| ==> Lower(a[i]) == Lower(b[i])
  }

  predicate IsMethod(candidate: Bytes)
  {
    exists m :: 0 <= m < 9 && SameIgnoringCase(candidate, Method(m))
  }

  predicate MethodPrefix(candidate: Bytes)
  {
    exists m :: 0 <= m < 9 && |candidate| <= |Method(m)| && SameIgnoringCase(candidate, Method(m)[..|candidate|])
  }

  // ---------------------------------------------------------- first matches

  /** The first position at or after `from` where `needle` stands. */
  function Find(haystack: Bytes, needle: Bytes, from: nat): (r: Option<nat>)
    requires |needle| > 0
    ensures r.Some? ==> from <= r.value && StandsAt(haystack, needle, r.value)
    ensures forall k: nat :: from <= k && (r.Some? ==> k < r.value) ==> !StandsAt(haystack, needle, k)
    decreases if |haystack| < from then 0 else |haystack| - from
  {
    if from + |needle| > |haystack| then None
    else if StandsAt(haystack, needle, from) then Some(from)
    else Find(haystack, needle, from + 1)
  }

  predicate StandsAt(haystack: Bytes, needle: Bytes, k: nat)
  {
    k + |needle| <= |haystack| && haystack[k..k + |needle|] == needle
  }

  lemma StandsInPrefix(shorter: Bytes, longer: Bytes, needle: Bytes, k: nat)
    requires shorter <= longer && k + |needle| <= |shorter|
    ensures StandsAt(longer, needle, k) <==> StandsAt(shorter, needle, k)
  {
    assert longer[k..k + |needle|] == shorter[k..k + |needle|];
  }

  lemma FindUnique(haystack: Bytes, needle: Bytes, k: nat)
    requires |needle| > 0 && StandsAt(haystack, needle, k)
    requires forall j: nat :: j < k ==> !StandsAt(haystack, needle, j)
    ensures Find(haystack, needle, 0) == Some(k)
  {
  }

  /** A first match stays the first match when bytes are appended. */
  lemma FindStable(shorter: Bytes, longer: Bytes, needle: Bytes)
    requires |needle| > 0 && shorter <= longer && Find(shorter, needle, 0).Some?
    ensures Find(longer, needle, 0) == Find(shorter, needle, 0)
  {
    var k := Find(shorter, needle, 0).value;
    StandsInPrefix(shorter, longer, needle, k);
    forall j: nat | j < k ensures !StandsAt(longer, needle, j) {
      StandsInPrefix(shorter, longer, needle, j);
    }
    FindUnique(longer, needle, k);
  }

  /** What lies after a prefix without a match can only begin at its last bytes. */
  lemma FindLater(shorter: Bytes, longer: Bytes, needle: Bytes)
    requires |needle| > 0 && shorter <= longer && Find(shorter, needle, 0).None?
    ensures Find(longer, needle, 0).Some? ==> Find(longer, needle, 0).value + |needle| > |shorter|
  {
    if Find(longer, needle, 0).Some? {
      var k := Find(longer, needle, 0).value;
      if k + |needle| <= |shorter| {
        StandsInPrefix(shorter, longer, needle, k);
        assert false;
      }
    }
  }

  function Crlf(): Bytes
  {
    [CR, LF]
  }

  function HeaderEnd(): Bytes
  {
    [CR, LF, CR, LF]
  }

  // ------------------------------------------------------------ description

  function Fields(line: Bytes): (fields: seq<Bytes>)
    ensures |fields| > 0
  {
    match Find(line, [SPACE], 0)
    case None => [line]
    case Some(k) => [line[..k]] + Fields(line[k + 1..])
  }

  /** `is_http_request_line`. */
  predicate IsRequestLine(line: Bytes)
  {
    var fields := Fields(line);
    && |fields| == 3
    && IsMethod(fields[0])
    && |fields[1]| > 0
    && (fields[2] == [72, 84, 84, 80, 47, 49, 46, 48] || fields[2] == [72, 84, 84, 80, 47, 49, 46, 49])
  }

  function Lines(block: Bytes): (lines: seq<Bytes>)
  {
    if |block| == 0 then []
    else match Find(block, Crlf(), 0)
      case None => [block]
      case Some(k) => [block[..k]] + Lines(block[k + 2..])
  }

  datatype Field = Field(isHost: bool, value: Bytes)

  function FieldOf(line: Bytes): (r: Option<Field>)
  {
    match Find(line, [COLON], 0)
    case None => None
    case Some(k) => Some(Field(SameIgnoringCase(line[..k], [104, 111, 115, 116]), line[k + 1..]))
  }

  /** The Host values of well-formed lines; a line without a colon spoils all of them. */
  function HostValues(lines: seq<Bytes>): (r: Option<seq<Bytes>>)
  {
    if |lines| == 0 then Some([])
    else match FieldOf(lines[0])
      case None => None
      case Some(field) =>
        match HostValues(lines[1..])
        case None => None
        case Some(rest) => Some((if field.isHost then [field.value] else []) + rest)
  }

  /** Exactly one Host field, with a usable domain. */
  function HostVerdict(rule: HostRule, values: Option<seq<Bytes>>): (r: ParseOutcome)
    ensures r.Matched? || r.NotMatched?
  {
    if values.Some? && |values.value| == 1 && rule(values.value[0]).Some? then Matched(rule(values.value[0]).value)
    else NotMatched
  }

  function HeadersOutcome(rule: HostRule, headers: Bytes): (r: ParseOutcome)
    ensures r.Matched? || r.NotMatched?
  {
    match Find(headers, Crlf(), 0)
    case None => NotMatched
    case Some(end) =>
      if !IsRequestLine(headers[..end]) then NotMatched
      else HostVerdict(rule, HostValues(Lines(headers[end + 2..])))
  }

  /** The first line, or all there is of it. */
  function RequestLine(input: Bytes): (line: Bytes)
  {
    match Find(input, Crlf(), 0) case None => input case Some(end) => input[..end]
  }

  /** May the line still become a valid request line? */
  predicate Promising(line: Bytes)
  {
    match Find(line, [SPACE], 0)
    case None => MethodPrefix(line)
    case Some(space) => IsMethod(line[..space])
  }

  /** `early_http_decision`. */
  function EarlyOutcome(input: Bytes): (r: ParseOutcome)
  {
    if Promising(RequestLine(input)) then NeedMoreData else NotMatched
  }

  /** `sniff_http_host`. */
  function HttpOutcome(rule: HostRule, input: Bytes): (r: ParseOutcome)
  {
    match Find(input, HeaderEnd(), 0)
    case None => if |input| == MAX_BYTES then NotMatched else EarlyOutcome(input)
    case Some(end) => HeadersOutcome(rule, input[..end])
  }

  // ------------------------------------------- a rejection is never regretted

  /** A complete header block is judged the same whatever follows it. */
  lemma CompleteHeadersStable(rule: HostRule, shorter: Bytes, longer: Bytes)
    requires shorter <= longer && Find(shorter, HeaderEnd(), 0).Some?
    ensures HttpOutcome(rule, longer) == HttpOutcome(rule, shorter)
  {
    FindStable(shorter, longer, HeaderEnd());
    var end := Find(shorter, HeaderEnd(), 0).value;
    assert longer[..end] == shorter[..end];
  }

  /** The request line of a complete request is the first line of the raw input. */
  lemma SameFirstLine(input: Bytes, end: nat, lineEnd: nat)
    requires Find(input, HeaderEnd(), 0) == Some(end) && Find(input[..end], Crlf(), 0) == Some(lineEnd)
    ensures Find(input, Crlf(), 0) == Some(lineEnd) && input[..end][..lineEnd] == input[..lineEnd]
  {
    FindStable(input[..end], input, Crlf());
  }

  /** A valid request line begins with a method and a space. */
  lemma RequestLineShape(line: Bytes)
    requires IsRequestLine(line)
    ensures Find(line, [SPACE], 0).Some? && Promising(line)
  {
  }

  lemma MethodsHavePrefixes(candidate: Bytes, k: nat)
    requires MethodPrefix(candidate) && k <= |candidate|
    ensures MethodPrefix(candidate[..k])
  {
    var m :| 0 <= m < 9 && |candidate| <= |Method(m)| && SameIgnoringCase(candidate, Method(m)[..|candidate|]);
    var name, whole := Method(m), Method(m)[..|candidate|];
    forall i | 0 <= i < k ensures Lower(candidate[..k][i]) == Lower(name[..k][i]) {
      assert Lower(candidate[i]) == Lower(whole[i]);
    }
    assert SameIgnoringCase(candidate[..k], name[..k]);
  }

  lemma MethodIsItsPrefix(candidate: Bytes)
    requires IsMethod(candidate)
    ensures MethodPrefix(candidate)
  {
    var m :| 0 <= m < 9 && SameIgnoringCase(candidate, Method(m));
    assert Method(m)[..|candidate|] == Method(m);
  }

  /** Every start of a promising line is promising. */
  lemma PromisingStart(start: Bytes, line: Bytes)
    requires start <= line && Promising(line)
    ensures Promising(start)
  {
    if Find(start, [SPACE], 0).Some? {
      FindStable(start, line, [SPACE]);
      var space := Find(start, [SPACE], 0).value;
      assert start[..space] == line[..space];
    } else {
      FindLater(start, line, [SPACE]);
      if Find(line, [SPACE], 0).Some? {
        var space := Find(line, [SPACE], 0).value;
        assert start == line[..space][..|start|];
        MethodIsItsPrefix(line[..space]);
        MethodsHavePrefixes(line[..space], |start|);
      } else {
        assert start == line[..|start|];
        MethodsHavePrefixes(line, |start|);
      }
    }
  }

  /** An unfinished first line that ends in a CR, which may turn out to end the line. */
  predicate EndsInLoneCr(input: Bytes)
  {
    |input| > 0 && input[|input| - 1] == CR && Find(input, Crlf(), 0).None?
  }

  /** The first line grows with the input, except that a trailing CR may turn out to end it. */
  lemma FirstLineGrows(shorter: Bytes, longer: Bytes)
    requires shorter <= longer
    ensures RequestLine(shorter) <= RequestLine(longer)
      || (EndsInLoneCr(shorter) && RequestLine(longer) == shorter[..|shorter| - 1])
  {
    if Find(shorter, Crlf(), 0).Some? {
      FindStable(shorter, longer, Crlf());
    } else if Find(longer, Crlf(), 0).Some? {
      FindLater(shorter, longer, Crlf());
      var end := Find(longer, Crlf(), 0).value;
      if end < |shorter| {
        assert end == |shorter| - 1;
        assert longer[end] == longer[end..end + 2][0];
      }
    }
  }

  /** Putting the lone CR back keeps a line with a complete method promising. */
  lemma MethodThenCr(line: Bytes)
    requires Find(line, [SPACE], 0).Some? && Promising(line)
    ensures Promising(line + [CR])
  {
    FindStable(line, line + [CR], [SPACE]);
    var space := Find(line, [SPACE], 0).value;
    assert (line + [CR])[..space] == line[..space];
  }

  /** If a longer input has a valid request line, no shorter one is rejected early. */
  lemma NoEarlyRegret(shorter: Bytes, longer: Bytes)
    requires shorter <= longer && IsRequestLine(RequestLine(longer))
    ensures EarlyOutcome(shorter) == NeedMoreData
  {
    var line := RequestLine(longer);
    RequestLineShape(line);
    FirstLineGrows(shorter, longer);
    if RequestLine(shorter) <= line {
      PromisingStart(RequestLine(shorter), line);
    } else {
      MethodThenCr(line);
      LoneCr(shorter);
    }
  }

  lemma LoneCr(input: Bytes)
    requires EndsInLoneCr(input)
    ensures input == input[..|input| - 1] + [CR]
  {
  }

  /**
    The early decision alone is not stable, and this is exactly when: a rejected
    input can be asked for more again only by completing a line end after a lone CR.
   */
  lemma EarlyRevival(input: Bytes)
    requires EarlyOutcome(input) == NotMatched
    ensures (exists longer :: input <= longer && EarlyOutcome(longer) == NeedMoreData)
      <==> EndsInLoneCr(input) && Promising(input[..|input| - 1])
  {
    forall longer | input <= longer && EarlyOutcome(longer) == NeedMoreData
      ensures EndsInLoneCr(input) && Promising(input[..|input| - 1])
    {
      FirstLineGrows(input, longer);
      if RequestLine(input) <= RequestLine(longer) {
        PromisingStart(RequestLine(input), RequestLine(longer));
      }
    }
    if EndsInLoneCr(input) && Promising(input[..|input| - 1]) {
      Revived(input);
      assert input <= input + [LF];
    }
  }

  /** Completing the line end after a lone CR revives a promising line. */
  lemma Revived(input: Bytes)
    requires EndsInLoneCr(input) && Promising(input[..|input| - 1])
    ensures EarlyOutcome(input + [LF]) == NeedMoreData
  {
    var longer, end := input + [LF], |input| - 1;
    LoneCr(input);
    assert longer[end] == CR && longer[end + 1] == LF;
    assert longer[end..end + 2] == [longer[end], longer[end + 1]] == Crlf();
    forall j: nat | j < end ensures !StandsAt(longer, Crlf(), j) {
      StandsInPrefix(input, longer, Crlf(), j);
    }
    FindUnique(longer, Crlf(), end);
    assert longer[..end] == input[..end];
  }

  /** A rejected prefix has no matching continuation. */
  lemma RejectionIsFinal(rule: HostRule, shorter: Bytes, longer: Bytes)
    requires shorter <= longer && |longer| <= MAX_BYTES && HttpOutcome(rule, shorter) == NotMatched
    ensures !HttpOutcome(rule, longer).Matched?
  {
    if Find(shorter, HeaderEnd(), 0).Some? {
      CompleteHeadersStable(rule, shorter, longer);
    } else if |shorter| == MAX_BYTES {
      assert shorter == longer;
    } else if HttpOutcome(rule, longer).Matched? {
      MatchedHasRequestLine(rule, longer);
      NoEarlyRegret(shorter, longer);
    }
  }

  lemma MatchedHasRequestLine(rule: HostRule, input: Bytes)
    requires HttpOutcome(rule, input).Matched?
    ensures Find(input, HeaderEnd(), 0).Some?
    ensures Find(input, Crlf(), 0).Some? && IsRequestLine(RequestLine(input))
  {
    var end := Find(input, HeaderEnd(), 0).value;
    SameFirstLine(input, end, Find(input[..end], Crlf(), 0).value);
  }

  /** A matching prefix keeps its domain. */
  lemma MatchIsFinal(rule: HostRule, shorter: Bytes, longer: Bytes)
    requires shorter <= longer && HttpOutcome(rule, shorter).Matched?
    ensures HttpOutcome(rule, longer) == HttpOutcome(rule, shorter)
  {
    MatchedHasRequestLine(rule, shorter);
    CompleteHeadersStable(rule, shorter, longer);
  }

  /** The smallest instance: a lone CR is rejected, the complete line end is not. */
  lemma EarlyDecisionIsNotMonotone()
    ensures EarlyOutcome([71, 69, 84, CR]) == NotMatched
    ensures EarlyOutcome([71, 69, 84, CR, LF]) == NeedMoreData
  {
    var cut, whole := [71, 69, 84, CR], [71, 69, 84, CR, LF];
    assert whole[3..5] == Crlf();
    forall j: nat | j < 3 ensures !StandsAt(whole, Crlf(), j) {
      assert whole[j..j + 2][0] == whole[j] != CR;
    }
    FindUnique(whole, Crlf(), 3);
    assert whole[..3] == Method(0) == Method(0)[..3];
    assert SameIgnoringCase(whole[..3], Method(0)[..3]);
    NoSuchByte(whole[..3], SPACE);
    assert Find(cut, Crlf(), 0).None? by {
      if Find(cut, Crlf(), 0).Some? { FindStable(cut, whole, Crlf()); }
    }
    NoSuchByte(cut, SPACE);
    forall m | 0 <= m < 9 && |cut| <= |Method(m)| ensures !SameIgnoringCase(cut, Method(m)[..|cut|]) {
      assert Lower(Method(m)[3]) != Lower(cut[3]);
    }
  }

  lemma NoSuchByte(line: Bytes, b: Byte)
    requires forall i :: 0 <= i < |line| ==> line[i] != b
    ensures Find(line, [b], 0).None?
  {
    forall k: nat ensures !StandsAt(line, [b], k) {
      if k + 1 <= |line| { assert line[k..k + 1][0] == line[k]; }
    }
  }

  // ------------------------------------------------------------- the parser

  /** The answer of the header loop after `found` Host values, with `lines` to come. */
  ghost function HostAnswer(rule: HostRule, found: seq<Bytes>, lines: seq<Bytes>): ParseOutcome
  {
    var rest := HostValues(lines);
    HostVerdict(rule, if rest.None? then None else Some(found + rest.value))
  }

  lemma HostAnswerStep(rule: HostRule, found: seq<Bytes>, line: Bytes, lines: seq<Bytes>)
    requires FieldOf(line).Some?
    ensures var field := FieldOf(line).value;
      HostAnswer(rule, found, [line] + lines)
      == HostAnswer(rule, if field.isHost then found + [field.value] else found, lines)
  {
    var field, rest := FieldOf(line).value, HostValues(lines);
    assert ([line] + lines)[1..] == lines;
    if rest.Some? {
      Associate(found, [field.value], rest.value);
      Associate(rest.value, [], []);
    }
  }

  lemma SpoiledLine(rule: HostRule, found: seq<Bytes>, line: Bytes, lines: seq<Bytes>)
    requires FieldOf(line).None?
    ensures HostAnswer(rule, found, [line] + lines) == NotMatched
  {
  }

  lemma TooManyHosts(rule: HostRule, found: seq<Bytes>, lines: seq<Bytes>)
    requires |found| > 1 || (|found| == 1 && rule(found[0]).None?)
    ensures HostAnswer(rule, found, lines) == NotMatched
  {
  }

  /** The first line of a header block and how far it reaches, its line end included. */
  method FirstLine(rest: Bytes) returns (line: Bytes, length: nat)
    requires |rest| > 0
    ensures 0 < length <= |rest| && Lines(rest) == [line] + Lines(rest[length..])
  {
    var end := Find(rest, Crlf(), 0);
    line := if end.None? then rest else rest[..end.value];
    length := if end.None? then |rest| else end.value + 2;
  }

  /** The header loop of `sniff_http_host`. */
  method WalkHeaders(rule: HostRule, block: Bytes) returns (outcome: ParseOutcome)
    ensures outcome == HostVerdict(rule, HostValues(Lines(block)))
  {
    var cursor := 0;
    var host: Option<Domain> := None;
    ghost var found: seq<Bytes> := [];
    assert block[0..] == block;
    if HostValues(Lines(block)).Some? { Associate(HostValues(Lines(block)).value, [], []); }
    while cursor < |block|
      invariant cursor <= |block|
      invariant HostVerdict(rule, HostValues(Lines(block))) == HostAnswer(rule, found, Lines(block[cursor..]))
      invariant |found| <= 1 && (host.None? <==> |found| == 0)
      invariant |found| == 1 ==> host == rule(found[0])
      decreases |block| - cursor
    {
      var line, length := FirstLine(block[cursor..]);
      ghost var next := block[cursor..][length..];
      var colon := Find(line, [COLON], 0);
      if colon.None? {
        SpoiledLine(rule, found, line, Lines(next));
        return NotMatched;
      }
      HostAnswerStep(rule, found, line, Lines(next));
      if SameIgnoringCase(line[..colon.value], [104, 111, 115, 116]) {
        var value := line[colon.value + 1..];
        found := found + [value];
        if host.Some? {
          TooManyHosts(rule, found, Lines(next));
          return NotMatched;
        }
        host := rule(value);
        if host.None? {
          TooManyHosts(rule, found, Lines(next));
          return NotMatched;
        }
      }
      cursor := cursor + length;
      assert block[cursor..] == next;
    }
    assert block[cursor..] == [];
    Associate(found, [], []);
    return if host.Some? then Matched(host.value) else NotMatched;
  }

  /** `sniff_http_host`. */
  method SniffHttpHost(rule: HostRule, input: Bytes) returns (outcome: ParseOutcome)
    ensures outcome == HttpOutcome(rule, input)
  {
    var end := Find(input, HeaderEnd(), 0);
    if end.None? {
      return if |input| == MAX_BYTES then NotMatched else EarlyOutcome(input);
    }
    var headers := input[..end.value];
    var lineEnd := Find(headers, Crlf(), 0);
    if lineEnd.None? || !IsRequestLine(headers[..lineEnd.value]) {
      return NotMatched;
    }
    outcome := WalkHeaders(rule, headers[lineEnd.value + 2..]);
  }
}
