/** The multipart encoder over its streams: the in-memory form and the streaming form. */
module Multipart {
  import opened Common
  import opened MultipartSpec
  import opened MultipartRoundTrip

  datatype Error = InputStreamReadFailed | OutputStreamWriteFailed | BodyPartFailed(reason: nat)

  const STREAM_BUFFER_SIZE: nat := 1024

  /** An input stream: reads return any non-empty chunk up to the asked size until the end, or fail if they may. */
  class InputStream {
    const content: Bytes
    const mayFail: bool
    var position: nat
    var streamError: bool
    ghost var slot: int

    constructor (content: Bytes, mayFail: bool)
      ensures this.content == content && this.mayFail == mayFail && position == 0 && !streamError
    {
      this.content, this.mayFail := content, mayFail;
      position, streamError := 0, false;
    }

    ghost predicate Valid()
      reads this
    {
      position <= |content| && (streamError ==> mayFail)
    }

    ghost function Remaining(): Bytes
      requires Valid()
      reads this
    {
      content[position..]
    }

    /** May answer yes at the end: the end is only known once a read has been tried. */
    method HasBytesAvailable() returns (available: bool)
      requires Valid()
      ensures Remaining() != [] ==> available
    {
      var guess: bool := *;
      available := guess || position < |content|;
    }

    method Read(maxLength: nat) returns (bytes: Bytes)
      requires Valid() && maxLength > 0
      modifies this`position, this`streamError
      ensures Valid()
      ensures old(streamError) ==> streamError
      ensures !streamError ==>
        && old(Remaining()) == bytes + Remaining()
        && |bytes| <= maxLength
        && (old(Remaining()) != [] ==> bytes != [])
    {
      var fails: bool := *;
      if (fails && mayFail) || streamError || position == |content| {
        streamError := streamError || (fails && mayFail);
        bytes := [];
      } else {
        var n: nat :| 1 <= n <= maxLength && position + n <= |content|;
        bytes := content[position..position + n];
        assert content[position..] == bytes + content[position + n..];
        position := position + n;
      }
    }
  }

  /** How many of the answers are no. */
  function Noes(answers: seq<bool>): nat {
    if answers == [] then 0 else (if answers[0] then 0 else 1) + Noes(answers[1..])
  }

  /** An output stream: a write takes at least one byte, or fails if it may; asking for space may be refused.
      `answers` are the answers it is going to give, after which there always is space. `intended` is the text handed
      over for writing so far, `lost` the bytes of it that were given up. */
  class OutputStream {
    const mayFail: bool
    var answers: seq<bool>
    var written: Bytes
    var streamError: bool
    ghost var refusals: nat
    ghost var intended: Bytes
    ghost var lost: nat

    constructor (answers: seq<bool>, mayFail: bool)
      ensures Conserved() && written == [] && intended == [] && !streamError && refusals == 0
      ensures this.answers == answers && this.mayFail == mayFail
    {
      this.answers, this.mayFail := answers, mayFail;
      written, streamError := [], false;
      refusals, intended, lost := 0, [], 0;
    }

    /** Every byte is written or lost, and the written bytes are the intended ones exactly when space was
        never refused. */
    ghost predicate Conserved()
      reads this
    {
      && |written| + lost == |intended|
      && (lost == 0 <==> refusals == 0)
      && (lost == 0 ==> written == intended)
      && (streamError ==> mayFail)
    }

    /** The refusals so far and those to come: no operation changes their sum. */
    ghost function AllRefusals(): nat
      reads `refusals, `answers
    {
      refusals + Noes(answers)
    }

    ghost predicate RefusesNext()
      reads `answers
    {
      answers != [] && !answers[0]
    }

    method HasSpaceAvailable() returns (available: bool)
      modifies this`refusals, this`answers
      ensures available == !old(RefusesNext())
      ensures refusals == old(refusals) + if available then 0 else 1
      ensures AllRefusals() == old(AllRefusals())
    {
      available := answers == [] || answers[0];
      if !available { refusals := refusals + 1; }
      if answers != [] { answers := answers[1..]; }
    }

    method Write(buffer: Bytes, maxLength: nat) returns (count: nat)
      requires 0 < maxLength <= |buffer|
      modifies this`written, this`streamError
      ensures streamError ==> old(streamError) || mayFail
      ensures old(streamError) ==> streamError
      ensures !streamError ==> 1 <= count <= maxLength && written == old(written) + buffer[..count]
    {
      var fails: bool := *;
      streamError := streamError || (fails && mayFail);
      count :| 1 <= count <= maxLength;
      written := written + buffer[..count];
    }
  }

  class BodyPart {
    const headers: seq<Header>
    const bodyStream: InputStream
    const bodyContentLength: nat
    var hasInitialBoundary: bool
    var hasFinalBoundary: bool

    constructor (headers: seq<Header>, bodyStream: InputStream, bodyContentLength: nat)
      ensures this.headers == headers && this.bodyStream == bodyStream
      ensures this.bodyContentLength == bodyContentLength
      ensures !hasInitialBoundary && !hasFinalBoundary
    {
      this.headers, this.bodyStream, this.bodyContentLength := headers, bodyStream, bodyContentLength;
      hasInitialBoundary, hasFinalBoundary := false, false;
    }
  }

  class MultipartFormData {
    var boundary: Bytes
    var bodyParts: seq<BodyPart>
    var bodyPartError: Option<Error>
    ghost var streams: set<InputStream>

    /** Each stream knows its slot, so no stream and no part is listed twice. */
    ghost predicate Distinct()
      reads this, streams
    {
      forall i :: 0 <= i < |bodyParts| ==> bodyParts[i].bodyStream in streams && bodyParts[i].bodyStream.slot == i
    }

    ghost predicate StreamsValid()
      reads this, streams
      requires Distinct()
    {
      forall i :: 0 <= i < |bodyParts| ==> bodyParts[i].bodyStream.Valid()
    }

    /** The parts and their streams are distinct objects, and boundary flags are only set at the two ends. */
    ghost predicate Valid()
      reads this, bodyParts, streams
    {
      && Distinct()
      && StreamsValid()
      && (forall i :: 0 <= i < |bodyParts| ==>
            && (bodyParts[i].hasInitialBoundary ==> i == 0)
            && (bodyParts[i].hasFinalBoundary ==> i == |bodyParts| - 1))
    }

    ghost predicate Marked()
      reads this, bodyParts
    {
      forall i :: 0 <= i < |bodyParts| ==>
        && bodyParts[i].hasInitialBoundary == (i == 0)
        && bodyParts[i].hasFinalBoundary == (i == |bodyParts| - 1)
    }

    /** The ends are marked, and from part `i` on the streams still hold what `parts` lists. */
    ghost predicate Pending(i: nat, parts: seq<Part>)
      reads this, bodyParts, streams
    {
      && Distinct()
      && StreamsValid()
      && Marked()
      && |parts| == |bodyParts|
      && (forall k :: 0 <= k < |parts| ==> parts[k].headers == bodyParts[k].headers)
      && (forall k :: i <= k < |parts| ==> parts[k].body == bodyParts[k].bodyStream.Remaining())
    }

    lemma PendingFacts(i: nat, parts: seq<Part>)
      requires Pending(i, parts)
      ensures |parts| == |bodyParts|
      ensures forall k :: 0 <= k < |bodyParts| ==> bodyParts[k].bodyStream in streams
    {
    }

    /** Some part's stream has failed. */
    ghost predicate ReadFailed()
      reads this, streams
    {
      exists x :: x in streams && x.streamError && x.mayFail
    }

    /** No part's stream can fail. */
    ghost predicate Reliable()
      reads this
    {
      forall x :: x in streams ==> !x.mayFail
    }

    /** The parts as values: the headers and what each stream will still deliver. */
    ghost function Parts(): (ps: seq<Part>)
      requires Valid()
      reads this, bodyParts, streams
    {
      seq(|bodyParts|, i requires 0 <= i < |bodyParts| && Valid() reads this, bodyParts, streams =>
            Part(bodyParts[i].headers, bodyParts[i].bodyStream.Remaining()))
    }

    constructor (boundary: Bytes)
      ensures Valid() && this.boundary == boundary && bodyParts == [] && bodyPartError == None && streams == {}
    {
      this.boundary, bodyParts, bodyPartError, streams := boundary, [], None, {};
    }

    method Append(stream: InputStream, length: nat, headers: seq<Header>)
      requires Valid() && stream.Valid() && stream !in streams
      requires forall p :: p in bodyParts ==> !p.hasFinalBoundary
      modifies this`bodyParts, this`streams, stream`slot
      ensures Valid() && Parts() == old(Parts()) + [Part(headers, stream.Remaining())]
      ensures streams == old(streams) + {stream}
      ensures |bodyParts| == |old(bodyParts)| + 1 && bodyParts[..|old(bodyParts)|] == old(bodyParts)
      ensures fresh(bodyParts[|old(bodyParts)|]) && bodyParts[|old(bodyParts)|].bodyContentLength == length
    {
      var part := new BodyPart(headers, stream, length);
      stream.slot := |bodyParts|;
      bodyParts, streams := bodyParts + [part], streams + {stream};
      assert Parts()[..|old(bodyParts)|] == old(Parts());
    }

    /** A file part: `file` is the outcome of the five checks on the file. The first failure is kept. */
    method AppendFile(file: Result<(InputStream, nat), Error>, headers: seq<Header>)
      requires Valid() && (file.Success? ==> file.value.0.Valid() && file.value.0 !in streams)
      requires forall p :: p in bodyParts ==> !p.hasFinalBoundary
      modifies this`bodyParts, this`streams, this`bodyPartError, if file.Success? then {file.value.0} else {}
      ensures Valid()
      ensures file.Success? ==>
        && file.value.0.Valid() && bodyPartError == old(bodyPartError)
        && Parts() == old(Parts()) + [Part(headers, file.value.0.Remaining())]
      ensures file.Failure? ==>
        && bodyParts == old(bodyParts)
        && bodyPartError == if old(bodyPartError).Some? then old(bodyPartError) else Some(file.error)
    {
      match file
      case Failure(reason) =>
        if bodyPartError.None? { bodyPartError := Some(reason); }
      case Success((stream, length)) =>
        Append(stream, length, headers);
    }

    /** The declared length of all parts; none when the 64-bit sum overflows, where the original traps. */
    method ContentLength() returns (length: Option<nat>)
      ensures length == if DeclaredLength(bodyParts) < 0x1_0000_0000_0000_0000
                        then Some(DeclaredLength(bodyParts)) else None
    {
      var total := 0;
      for i := 0 to |bodyParts|
        invariant total == DeclaredLength(bodyParts[..i]) < 0x1_0000_0000_0000_0000
      {
        assert bodyParts[..i + 1][..i] == bodyParts[..i];
        total := total + bodyParts[i].bodyContentLength;
        if total >= 0x1_0000_0000_0000_0000 {
          DeclaredLengthGrows(bodyParts, i + 1);
          return None;
        }
      }
      assert bodyParts[..|bodyParts|] == bodyParts;
      return Some(total);
    }

    /** Marks the two ends. */
    method MarkEnds()
      requires Valid()
      modifies bodyParts
      ensures Pending(0, old(Parts()))
    {
      if |bodyParts| > 0 {
        bodyParts[0].hasInitialBoundary := true;
        bodyParts[|bodyParts| - 1].hasFinalBoundary := true;
      }
    }

    method EncodeHeaders(part: BodyPart) returns (text: Bytes)
      ensures text == HeaderBlock(part.headers)
    {
      text := [];
      for i := 0 to |part.headers|
        invariant text == HeaderLines(part.headers[..i])
      {
        assert part.headers[..i + 1][..i] == part.headers[..i];
        text := text + HeaderLine(part.headers[i]);
      }
      assert part.headers[..|part.headers|] == part.headers;
      text := text + CRLF;
    }

    /** Reads the stream to its end whatever the chunk sizes. */
    method EncodeBodyStream(part: BodyPart) returns (r: Result<Bytes, Error>)
      requires part.bodyStream.Valid()
      modifies part.bodyStream`position, part.bodyStream`streamError
      ensures part.bodyStream.Valid()
      ensures r.Success? ==> r.value == old(part.bodyStream.Remaining()) && part.bodyStream.Remaining() == []
      ensures r.Failure? ==> r.error == InputStreamReadFailed && part.bodyStream.streamError
    {
      hide InputStream.Valid, InputStream.Remaining;
      var input := part.bodyStream;
      var encoded: Bytes := [];
      while true
        invariant input.Valid()
        invariant old(input.Remaining()) == encoded + input.Remaining()
        decreases |input.Remaining()|
      {
        var available := input.HasBytesAvailable();
        if !available { break; }
        var bytes := input.Read(STREAM_BUFFER_SIZE);
        if input.streamError { return Failure(InputStreamReadFailed); }
        if |bytes| == 0 { break; }
        Assoc(encoded, bytes, input.Remaining());
        encoded := encoded + bytes;
      }
      return Success(encoded);
    }

    method EncodeBodyPart(part: BodyPart) returns (r: Result<Bytes, Error>)
      requires part.bodyStream.Valid()
      modifies part.bodyStream`position, part.bodyStream`streamError
      ensures part.bodyStream.Valid()
      ensures r.Success? ==>
        r.value == EncodePart(boundary, Part(part.headers, old(part.bodyStream.Remaining())),
                              part.hasInitialBoundary, part.hasFinalBoundary)
      ensures r.Failure? ==> r.error == InputStreamReadFailed && part.bodyStream.streamError
    {
      var encoded := BoundaryData(if part.hasInitialBoundary then Initial else Encapsulated, boundary);
      var headers := EncodeHeaders(part);
      encoded := encoded + headers;
      var body := EncodeBodyStream(part);
      if body.Failure? { return body; }
      encoded := encoded + body.value;
      if part.hasFinalBoundary {
        encoded := encoded + BoundaryData(Final, boundary);
      }
      return Success(encoded);
    }

    /** Encodes part `i`, and leaves the streams of the later parts unread. */
    method EncodeNext(i: nat, ghost parts: seq<Part>) returns (r: Result<Bytes, Error>)
      requires Pending(i, parts) && i < |bodyParts|
      modifies bodyParts[i].bodyStream`position, bodyParts[i].bodyStream`streamError
      ensures Pending(i + 1, parts)
      ensures r.Success? ==> r.value == EncodePart(boundary, parts[i], i == 0, i == |parts| - 1)
      ensures r.Failure? ==> r.error == InputStreamReadFailed && ReadFailed()
    {
      r := EncodeBodyPart(bodyParts[i]);
    }

    /** Encodes all parts in memory. */
    method EncodeInMemory() returns (r: Result<Bytes, Error>)
      requires Valid()
      modifies bodyParts, streams
      ensures bodyPartError.Some? ==> r == Failure(bodyPartError.value)
      ensures r.Success? ==> r.value == Encode(boundary, old(Parts()))
      ensures bodyPartError.None? && r.Failure? ==> r.error == InputStreamReadFailed && ReadFailed()
      ensures bodyPartError.None? && Reliable() ==> r.Success?
    {
      if bodyPartError.Some? { return Failure(bodyPartError.value); }
      ghost var parts := Parts();
      MarkEnds();
      r := EncodeParts(parts);
    }

    method EncodeParts(ghost parts: seq<Part>) returns (r: Result<Bytes, Error>)
      requires Pending(0, parts)
      modifies streams
      ensures r.Success? ==> r.value == Encode(boundary, parts)
      ensures r.Failure? ==> r.error == InputStreamReadFailed && ReadFailed()
    {
      hide *;
      PendingFacts(0, parts);
      EncodeFirstStart(boundary, parts);
      var encoded: Bytes := [];
      for i := 0 to |bodyParts|
        invariant Pending(i, parts)
        invariant encoded == EncodeFirst(boundary, parts, i)
      {
        var part := EncodeNext(i, parts);
        if part.Failure? { return part; }
        EncodeFirstNext(boundary, parts, i);
        encoded := encoded + part.value;
      }
      return Success(encoded);
    }

    // -------------------------------------------------------------------------------------------
    // The streaming form
    // -------------------------------------------------------------------------------------------

    /** Pushes `buffer` out in partial writes, and gives the rest up when space is refused. */
    method WriteBuffer(buffer: Bytes, output: OutputStream) returns (r: Result<(), Error>)
      requires output.Conserved()
      modifies output
      ensures r.Success? ==> output.Conserved() && output.intended == old(output.intended) + buffer
      ensures r.Failure? ==> r.error == OutputStreamWriteFailed && output.streamError && output.mayFail
      ensures output.AllRefusals() == old(output.AllRefusals()) && output.refusals >= old(output.refusals)
      ensures buffer != [] && old(output.RefusesNext()) ==> r.Success? && output.refusals > old(output.refusals)
    {
      hide OutputStream.AllRefusals, OutputStream.RefusesNext;
      var rest := buffer;
      var bytesToWrite: nat := |buffer|;
      ghost var done: nat := 0;
      while bytesToWrite > 0
        invariant done + bytesToWrite == |buffer|
        invariant bytesToWrite > 0 ==> rest == buffer[done..]
        invariant output.written == old(output.written) + buffer[..done]
        invariant output.refusals == old(output.refusals) && output.AllRefusals() == old(output.AllRefusals())
        invariant output.streamError ==> output.mayFail
        invariant done > 0 ==> !old(output.RefusesNext())
        invariant done == 0 ==> output.RefusesNext() == old(output.RefusesNext())
        invariant output.intended == old(output.intended) && output.lost == old(output.lost)
        decreases bytesToWrite
      {
        var space := output.HasSpaceAvailable();
        if !space { break; }
        var bytesWritten := output.Write(rest, bytesToWrite);
        if output.streamError { return Failure(OutputStreamWriteFailed); }
        PrefixGrows(buffer, done, bytesWritten);
        SuffixShrinks(buffer, done, bytesWritten);
        Assoc(old(output.written), buffer[..done], rest[..bytesWritten]);
        bytesToWrite, done := bytesToWrite - bytesWritten, done + bytesWritten;
        if bytesToWrite > 0 {
          rest := rest[bytesWritten..];
        }
      }
      output.intended, output.lost := output.intended + buffer, output.lost + bytesToWrite;
      return Success(());
    }

    /** Copies the stream chunk by chunk. */
    method WriteBodyStream(part: BodyPart, output: OutputStream) returns (r: Result<(), Error>)
      requires part.bodyStream.Valid() && output.Conserved()
      modifies part.bodyStream`position, part.bodyStream`streamError, output
      ensures part.bodyStream.Valid()
      ensures r.Success? ==>
        output.Conserved() && output.intended == old(output.intended) + old(part.bodyStream.Remaining())
      ensures r.Failure? ==>
        || (r.error == InputStreamReadFailed && part.bodyStream.streamError)
        || (r.error == OutputStreamWriteFailed && output.streamError && output.mayFail)
      ensures output.AllRefusals() == old(output.AllRefusals()) && output.refusals >= old(output.refusals)
    {
      hide OutputStream.Conserved, OutputStream.AllRefusals, OutputStream.RefusesNext, InputStream.Valid, InputStream.Remaining;
      var input := part.bodyStream;
      ghost var copied: Bytes := [];
      while true
        invariant input.Valid() && output.Conserved()
        invariant output.AllRefusals() == old(output.AllRefusals()) && output.refusals >= old(output.refusals)
        invariant old(input.Remaining()) == copied + input.Remaining()
        invariant output.intended == old(output.intended) + copied
        decreases |input.Remaining()|
      {
        var available := input.HasBytesAvailable();
        if !available { break; }
        var bytes := input.Read(STREAM_BUFFER_SIZE);
        if input.streamError { return Failure(InputStreamReadFailed); }
        if |bytes| == 0 { break; }
        r := WriteBuffer(bytes, output);
        if r.Failure? { return r; }
        Assoc(copied, bytes, input.Remaining());
        Assoc(old(output.intended), copied, bytes);
        copied := copied + bytes;
      }
      return Success(());
    }

    method WriteBodyPart(part: BodyPart, output: OutputStream) returns (r: Result<(), Error>)
      requires part.bodyStream.Valid() && output.Conserved()
      modifies part.bodyStream`position, part.bodyStream`streamError, output
      ensures part.bodyStream.Valid()
      ensures r.Success? ==>
        && output.Conserved()
        && output.intended == old(output.intended)
             + EncodePart(boundary, Part(part.headers, old(part.bodyStream.Remaining())),
                          part.hasInitialBoundary, part.hasFinalBoundary)
      ensures r.Failure? ==>
        || (r.error == InputStreamReadFailed && part.bodyStream.streamError)
        || (r.error == OutputStreamWriteFailed && output.streamError && output.mayFail)
      ensures output.AllRefusals() == old(output.AllRefusals()) && output.refusals >= old(output.refusals)
      ensures old(output.RefusesNext()) ==> output.refusals > old(output.refusals)
    {
      ghost var w, body := output.intended, part.bodyStream.Remaining();
      PartInPieces(boundary, Part(part.headers, body), part.hasInitialBoundary, part.hasFinalBoundary, w);
      assert forall kind :: BoundaryData(kind, boundary) != [];
      hide OutputStream.Conserved, OutputStream.AllRefusals, OutputStream.RefusesNext, EncodePart, HeaderBlock, BoundaryData;
      var open := BoundaryData(if part.hasInitialBoundary then Initial else Encapsulated, boundary);
      var headers := EncodeHeaders(part);
      r := WriteBuffer(open, output);
      if r.Success? {
        r := WriteBuffer(headers, output);
      }
      if r.Success? {
        r := WriteBodyStream(part, output);
      }
      if r.Success? && part.hasFinalBoundary {
        r := WriteBuffer(BoundaryData(Final, boundary), output);
      }
    }

    method WriteNext(i: nat, ghost parts: seq<Part>, output: OutputStream) returns (r: Result<(), Error>)
      requires Pending(i, parts) && i < |bodyParts| && output.Conserved()
      modifies bodyParts[i].bodyStream`position, bodyParts[i].bodyStream`streamError, output
      ensures Pending(i + 1, parts)
      ensures r.Success? ==>
        && output.Conserved()
        && output.intended == old(output.intended) + EncodePart(boundary, parts[i], i == 0, i == |parts| - 1)
      ensures r.Failure? ==>
        || (r.error == InputStreamReadFailed && ReadFailed())
        || (r.error == OutputStreamWriteFailed && output.streamError && output.mayFail)
      ensures output.AllRefusals() == old(output.AllRefusals()) && output.refusals >= old(output.refusals)
      ensures old(output.RefusesNext()) ==> output.refusals > old(output.refusals)
    {
      r := WriteBodyPart(bodyParts[i], output);
    }

    /** Streams all parts to `output`. After success every byte of the in-memory encoding is written or lost,
        and the output equals that encoding if and only if space was never refused. */
    method WriteEncodedData(output: OutputStream) returns (r: Result<(), Error>)
      requires Valid() && output.Conserved() && output.intended == []
      modifies bodyParts, streams, output
      ensures bodyPartError.Some? ==> r == Failure(bodyPartError.value)
      ensures r.Success? ==>
        && output.Conserved()
        && output.intended == Encode(boundary, old(Parts()))
        && (output.written == Encode(boundary, old(Parts())) <==> output.refusals == 0)
      ensures bodyPartError.None? && r.Failure? ==>
        || (r.error == InputStreamReadFailed && ReadFailed())
        || (r.error == OutputStreamWriteFailed && output.streamError && output.mayFail)
      ensures bodyPartError.None? && Reliable() && !output.mayFail ==> r.Success?
      ensures output.AllRefusals() == old(output.AllRefusals())
      ensures bodyPartError.None? && bodyParts != [] && old(output.RefusesNext()) ==> output.refusals > 0
    {
      if bodyPartError.Some? { return Failure(bodyPartError.value); }
      ghost var parts := Parts();
      MarkEnds();
      r := WriteParts(parts, output);
    }

    method WriteParts(ghost parts: seq<Part>, output: OutputStream) returns (r: Result<(), Error>)
      requires Pending(0, parts) && output.Conserved() && output.intended == []
      modifies streams, output
      ensures r.Success? ==> output.Conserved() && output.intended == Encode(boundary, parts)
      ensures r.Failure? ==>
        || (r.error == InputStreamReadFailed && ReadFailed())
        || (r.error == OutputStreamWriteFailed && output.streamError && output.mayFail)
      ensures output.AllRefusals() == old(output.AllRefusals())
      ensures bodyParts != [] && old(output.RefusesNext()) ==> output.refusals > 0
    {
      hide *;
      PendingFacts(0, parts);
      EncodeFirstStart(boundary, parts);
      for i := 0 to |bodyParts|
        invariant Pending(i, parts)
        invariant output.Conserved() && output.intended == EncodeFirst(boundary, parts, i)
        invariant output.AllRefusals() == old(output.AllRefusals()) && output.refusals >= old(output.refusals)
        invariant i == 0 ==> output.RefusesNext() == old(output.RefusesNext())
        invariant i > 0 && old(output.RefusesNext()) ==> output.refusals > 0
      {
        r := WriteNext(i, parts, output);
        if r.Failure? { return; }
        EncodeFirstNext(boundary, parts, i);
      }
      r := Success(());
    }
  }

  /** Streaming refines encoding in memory: with streams that cannot fail and space always available, the output is
      exactly what the in-memory form prints. */
  method StreamAsInMemory(form: MultipartFormData, output: OutputStream) returns (r: Result<(), Error>)
    requires form.Valid() && form.bodyPartError.None? && form.Reliable()
    requires output.Conserved() && output.intended == [] && !output.mayFail && output.AllRefusals() == 0
    modifies form.bodyParts, form.streams, output
    ensures r.Success? && output.written == Encode(form.boundary, old(form.Parts()))
  {
    r := form.WriteEncodedData(output);
  }

  /** Truncation: when the first answer is no, every form with parts whose streams cannot fail is written successfully
      although the output is shorter than what the in-memory form prints. */
  method Truncate(form: MultipartFormData, output: OutputStream) returns (r: Result<(), Error>)
    requires form.Valid() && form.bodyPartError.None? && form.Reliable() && form.bodyParts != []
    requires output.Conserved() && output.intended == [] && !output.mayFail && output.RefusesNext()
    modifies form.bodyParts, form.streams, output
    ensures r.Success? && |output.written| < |Encode(form.boundary, old(form.Parts()))|
  {
    hide *;
    r := form.WriteEncodedData(output);
    LossIsSeen(output);
  }

  /** Such a run exists: a form with one empty part. */
  method TruncatedRun(boundary: Bytes, answers: seq<bool>) returns (r: Result<(), Error>, written: Bytes)
    requires answers != [] && !answers[0]
    ensures r.Success? && |written| < |Encode(boundary, [Part([], [])])|
  {
    var form := OnePart(boundary);
    var output := new OutputStream(answers, false);
    assert output.RefusesNext();
    hide *;
    r := Truncate(form, output);
    written := output.written;
  }

  method OnePart(boundary: Bytes) returns (form: MultipartFormData)
    ensures fresh(form) && fresh(form.streams) && form.Valid() && form.Reliable() && form.bodyPartError.None?
    ensures form.boundary == boundary && form.Parts() == [Part([], [])] && form.bodyParts != []
    ensures forall i :: 0 <= i < |form.bodyParts| ==> fresh(form.bodyParts[i])
  {
    form := new MultipartFormData(boundary);
    var stream := new InputStream([], false);
    form.Append(stream, 0, []);
    assert stream.Remaining() == [];
    hide MultipartFormData.Valid;
  }

  lemma LossIsSeen(output: OutputStream)
    requires output.Conserved() && output.refusals > 0
    ensures |output.written| < |output.intended|
  {
  }

  /** The pieces of a printed part, written one after the other behind `w`. */
  lemma PartInPieces(boundary: Bytes, p: Part, initial: bool, final: bool, w: Bytes)
    ensures var open := BoundaryData(if initial then Initial else Encapsulated, boundary);
            var pieces := w + open + HeaderBlock(p.headers) + p.body;
            w + EncodePart(boundary, p, initial, final)
            == if final then pieces + BoundaryData(Final, boundary) else pieces
  {
    var open := BoundaryData(if initial then Initial else Encapsulated, boundary);
    var headers, close := HeaderBlock(p.headers), if final then BoundaryData(Final, boundary) else [];
    hide BoundaryData, HeaderBlock;
    Assoc(w, open, headers);
    Assoc(w, open + headers, p.body);
    Assoc(w, open + headers + p.body, close);
  }

  ghost function DeclaredLength(parts: seq<BodyPart>): nat {
    if parts == [] then 0 else DeclaredLength(parts[..|parts| - 1]) + parts[|parts| - 1].bodyContentLength
  }

  lemma {:induction false} DeclaredLengthGrows(parts: seq<BodyPart>, n: nat)
    requires n <= |parts|
    ensures DeclaredLength(parts[..n]) <= DeclaredLength(parts)
    decreases |parts| - n
  {
    if n == |parts| {
      assert parts[..n] == parts;
    } else {
      assert parts[..n + 1][..n] == parts[..n];
      DeclaredLengthGrows(parts, n + 1);
    }
  }

  /** When the declared lengths are true, `ContentLength` is the body part of `EncodedLength`. */
  lemma {:induction false} DeclaredLengthIsTrue(list: seq<BodyPart>, parts: seq<Part>)
    requires |list| == |parts| && forall i :: 0 <= i < |list| ==> list[i].bodyContentLength == |parts[i].body|
    ensures DeclaredLength(list) == SumLengths(parts)
  {
    if list != [] {
      DeclaredLengthIsTrue(list[..|list| - 1], parts[..|parts| - 1]);
    }
  }
}
