/**
  File commands on the wire, bsp_sam9g20/memory/SDCardHandlerPackets.h: a repository path and a file
  name, each with a terminating zero byte, alone, twice (source and target), or followed by data.
 */
module FileCommands {
  import opened Wrappers

  const SIZE_SPACE: nat := 0x1_0000_0000   // size_t is 32 bits wide on the target

  datatype Result = RETURN_OK | RETURN_FAILED | BUFFER_TOO_SHORT | STREAM_TOO_SHORT

  /** MAX_REPOSITORY_PATH_LENGTH and MAX_FILENAME_LENGTH, the capacities of the string types. */
  datatype Limits = Limits(path: nat, name: nat)

  /** Addition and subtraction of size_t. */
  function Add(a: nat, b: nat): nat {
    (a + b) % SIZE_SPACE
  }

  function Less(a: nat, b: nat): nat {
    if b <= a then a - b else (SIZE_SPACE - (b - a) % SIZE_SPACE) % SIZE_SPACE
  }

  // ---------- the format ----------

  function Serialized(path: seq<bv8>, name: seq<bv8>): seq<bv8> {
    path + [0] + name + [0]
  }

  ghost predicate IsText(s: seq<bv8>, limit: nat) {
    |s| <= limit && forall i :: 0 <= i < |s| ==> s[i] != 0
  }

  /** std::strlen; behind the memory looked at, a zero byte follows. */
  function TextLength(memory: seq<bv8>, at: nat): (n: nat)
    ensures at <= |memory| ==> at + n <= |memory|
    ensures forall i :: at <= i < at + n && i < |memory| ==> memory[i] != 0
    ensures at + n < |memory| ==> memory[at + n] == 0
    decreases |memory| - at
  {
    if at >= |memory| || memory[at] == 0 then 0 else 1 + TextLength(memory, at + 1)
  }

  /** Assigning to a string type of fixed capacity. */
  function Assigned(memory: seq<bv8>, at: nat, capacity: nat): seq<bv8> {
    var n := TextLength(memory, at);
    if at > |memory| then [] else if n <= capacity then memory[at..at + n] else memory[at..at + capacity]
  }

  // ---------- parsing ----------

  /** What deSerializeRepositoryAndFilename does: the new position and size, and the path and the name
      that it assigns, if it gets that far. */
  datatype Parsed = Parsed(result: Result, position: nat, size: nat, path: Option<seq<bv8>>, name: Option<seq<bv8>>)

  function Parse(memory: seq<bv8>, position: nat, size: nat, limits: Limits): Parsed {
    if size < TextLength(memory, position) then Parsed(STREAM_TOO_SHORT, position, size, None, None)
    else
      var path := Assigned(memory, position, limits.path);
      var p, s := position + |path| + 1, Less(size, |path| + 1);
      if TextLength(memory, p) > limits.name then Parsed(RETURN_OK, p, s, Some(path), None)
      else if s < TextLength(memory, p) then Parsed(STREAM_TOO_SHORT, p, s, Some(path), None)
      else
        var name := Assigned(memory, p, limits.name);
        Parsed(RETURN_OK, p + |name| + 1, Less(s, |name| + 1), Some(path), Some(name))
  }

  lemma {:induction false} TextEndsAtZero(memory: seq<bv8>, at: nat, text: seq<bv8>)
    requires at + |text| <= |memory| && memory[at..at + |text|] == text
    requires forall i :: 0 <= i < |text| ==> text[i] != 0
    requires at + |text| < |memory| ==> memory[at + |text|] == 0
    ensures TextLength(memory, at) == |text|
    decreases |text|
  {
    if text != [] {
      assert memory[at] == memory[at..at + |text|][0];
      assert memory[at + 1..at + 1 + |text[1..]|] == text[1..];
      TextEndsAtZero(memory, at + 1, text[1..]);
    }
  }

  /** The parts of a serialized path and name that starts at `at`. */
  ghost predicate LiesAt(memory: seq<bv8>, at: nat, path: seq<bv8>, name: seq<bv8>) {
    var q := at + |path| + 1;
    && q + |name| < |memory|
    && memory[at..at + |path|] == path && memory[at + |path|] == 0
    && memory[q..q + |name|] == name && memory[q + |name|] == 0
  }

  lemma SerializedLiesAt(before: seq<bv8>, path: seq<bv8>, name: seq<bv8>, after: seq<bv8>)
    ensures var memory := before + Serialized(path, name) + after;
            && LiesAt(memory, |before|, path, name)
            && |Serialized(path, name)| == |path| + |name| + 2
            && memory[|before| + |path| + |name| + 2..] == after
  {
  }

  lemma ParseWhatLiesAt(memory: seq<bv8>, at: nat, path: seq<bv8>, name: seq<bv8>, size: nat, limits: Limits)
    requires IsText(path, limits.path) && IsText(name, limits.name)
    requires LiesAt(memory, at, path, name) && size >= |path| + |name| + 2
    ensures Parse(memory, at, size, limits)
            == Parsed(RETURN_OK, at + |path| + |name| + 2, size - (|path| + |name| + 2), Some(path), Some(name))
  {
    hide TextLength;
    TextEndsAtZero(memory, at, path);
    TextEndsAtZero(memory, at + |path| + 1, name);
  }

  /** What becomes of a path and a name in memory, each followed by a zero byte, for a stream of any size
      that starts with them: it is refused with nothing assigned if it ends inside the path, refused
      with the path assigned if it ends inside the name, and taken without the name if this is too long. */
  lemma ParseOfAnySize(memory: seq<bv8>, at: nat, path: seq<bv8>, name: seq<bv8>, size: nat, limits: Limits)
    requires IsText(path, limits.path) && IsText(name, |name|) && LiesAt(memory, at, path, name)
    requires size < 0x1_0000_0000
    ensures var p, behind, left := Parse(memory, at, size, limits), at + |path| + 1, size - (|path| + 1);
            && (size < |path| ==> p == Parsed(STREAM_TOO_SHORT, at, size, None, None))
            && (|path| < size && left < |name| <= limits.name ==>
                  p == Parsed(STREAM_TOO_SHORT, behind, left, Some(path), None))
            && (|path| < size && limits.name < |name| ==> p == Parsed(RETURN_OK, behind, left, Some(path), None))
            && (|path| < size && |name| < left && |name| <= limits.name ==>
                  p == Parsed(RETURN_OK, behind + |name| + 1, left - (|name| + 1), Some(path), Some(name)))
            && (|path| < size && |name| == left && |name| <= limits.name ==>
                  p == Parsed(RETURN_OK, behind + |name| + 1, 0xffff_ffff, Some(path), Some(name)))
            && (|path| == size && limits.name < |name| ==>
                  p == Parsed(RETURN_OK, behind, 0xffff_ffff, Some(path), None))
            && (|path| == size && |name| <= limits.name && |name| < 0xffff_ffff ==>
                  p == Parsed(RETURN_OK, behind + |name| + 1, 0xffff_fffe - |name|, Some(path), Some(name)))
  {
    hide TextLength, Less;
    TextEndsAtZero(memory, at, path);
    TextEndsAtZero(memory, at + |path| + 1, name);
    LessInCases(size, |path| + 1);
    LessInCases(Less(size, |path| + 1), |name| + 1);
  }

  lemma LessInCases(a: nat, b: nat)
    requires a < SIZE_SPACE
    ensures Less(a, b) < SIZE_SPACE
    ensures b <= a ==> Less(a, b) == a - b
    ensures a < b <= a + SIZE_SPACE ==> Less(a, b) == a + SIZE_SPACE - b
  {
  }

  /** A path that is too long is cut, and what is left of it, but for a byte, is taken for the name. */
  lemma LongPathIsCut(memory: seq<bv8>, at: nat, path: seq<bv8>, size: nat, limits: Limits)
    requires IsText(path, |path|) && at + |path| < |memory| && memory[at..at + |path|] == path
    requires memory[at + |path|] == 0 && limits.path < |path| <= size < 0x1_0000_0000
    requires |path| - (limits.path + 1) <= limits.name
    ensures Parse(memory, at, size, limits).path == Some(path[..limits.path])
    ensures Parse(memory, at, size, limits).name == Some(path[limits.path + 1..])
    ensures Parse(memory, at, size, limits).result == RETURN_OK
    ensures Parse(memory, at, size, limits).position == at + |path| + 1
  {
    hide TextLength, Less;
    var k := limits.path + 1;
    var rest := path[k..];
    TextEndsAtZero(memory, at, path);
    assert memory[at + k..at + |path|] == memory[at..at + |path|][k..] == rest;
    assert at + k + |rest| == at + |path|;
    TextEndsAtZero(memory, at + k, rest);
    LessInCases(size, k);
    assert memory[at..at + limits.path] == memory[at..at + |path|][..limits.path];
  }

  /** The round trip: parsing a serialized path and name, followed by anything, gives the path, the name,
      and exactly what follows. */
  lemma ParseSerialized(before: seq<bv8>, path: seq<bv8>, name: seq<bv8>, rest: seq<bv8>, behind: seq<bv8>,
      limits: Limits)
    requires IsText(path, limits.path) && IsText(name, limits.name)
    ensures var memory := before + Serialized(path, name) + (rest + behind);
            var p := Parse(memory, |before|, |Serialized(path, name)| + |rest|, limits);
            && p == Parsed(RETURN_OK, |before| + |Serialized(path, name)|, |rest|, Some(path), Some(name))
            && p.position + p.size <= |memory| && memory[p.position..p.position + p.size] == rest
  {
    hide Serialized, Parse, LiesAt;
    var memory := before + Serialized(path, name) + (rest + behind);
    SerializedLiesAt(before, path, name, rest + behind);
    ParseWhatLiesAt(memory, |before|, path, name, |Serialized(path, name)| + |rest|, limits);
    assert memory[|before| + |path| + |name| + 2..][..|rest|] == rest;
  }

  /** How many bytes a successful parse takes from the stream: the path, cut to its capacity, and the
      name, unless this is too long, each with one byte more. */
  function Consumed(memory: seq<bv8>, position: nat, limits: Limits): nat {
    var n := |Assigned(memory, position, limits.path)|;
    var m := TextLength(memory, position + n + 1);
    n + 1 + (if m > limits.name then 0 else m + 1)
  }

  lemma AssignedName(memory: seq<bv8>, at: nat, capacity: nat)
    requires TextLength(memory, at) <= capacity
    ensures |Assigned(memory, at, capacity)| == TextLength(memory, at)
  {
    if at > |memory| { assert TextLength(memory, at) == 0; }
  }

  /** What is left of a number of type size_t. */
  function Remainder(size: nat, taken: nat): nat {
    (size - taken) % SIZE_SPACE
  }

  lemma LessOnce(a: nat, b: nat)
    requires a < SIZE_SPACE
    ensures Less(a, b) == Remainder(a, b) < SIZE_SPACE
    ensures Remainder(a, b) + b == a <==> b <= a
  {
  }

  lemma LessTwice(a: nat, b: nat, c: nat)
    requires a < SIZE_SPACE
    ensures Less(Less(a, b), c) == Remainder(a, b + c)
    ensures Remainder(a, b + c) + (b + c) == a <==> b + c <= a
  {
    LessOnce(a, b);
    LessOnce(Less(a, b), c);
    LessOnce(a, b + c);
    var q := (a - b) / SIZE_SPACE;
    assert a - b == q * SIZE_SPACE + (a - b) % SIZE_SPACE;
    RemainderOfShift((a - b) % SIZE_SPACE - c, q);
  }

  lemma RemainderOfShift(x: int, q: int)
    ensures (x + q * SIZE_SPACE) % SIZE_SPACE == x % SIZE_SPACE
  {
  }

  /** After a successful parse the size left is right if and only if the stream holds what was taken
      from it; otherwise it is wrong by a wrap-around. */
  lemma SizeLeftExactly(memory: seq<bv8>, position: nat, size: nat, limits: Limits)
    requires size < SIZE_SPACE
    ensures var p, consumed := Parse(memory, position, size, limits), Consumed(memory, position, limits);
            p.result == RETURN_OK ==>
              && p.position == position + consumed
              && (p.size + consumed == size <==> consumed <= size)
              && p.size == Remainder(size, consumed)
  {
    hide TextLength, Assigned, Less, Remainder;
    var n := |Assigned(memory, position, limits.path)|;
    var m := TextLength(memory, position + n + 1);
    if m > limits.name {
      LessOnce(size, n + 1);
    } else {
      AssignedName(memory, position + n + 1, limits.name);
      LessTwice(size, n + 1, m + 1);
    }
  }

  /** A stream of one byte without a zero: parsed with success, and 2^32 - 2 bytes are said to be left. */
  lemma SizeLeftWrapsAround()
    ensures Parse([65], 0, 1, Limits(10, 10)) == Parsed(RETURN_OK, 3, 0xffff_fffe, Some([65]), Some([]))
  {
    assert TextLength([65], 1) == 0 && TextLength([65], 0) == 1;
    assert Assigned([65], 0, 10) == [65] && Assigned([65], 2, 10) == [];
  }

  /** A source and a target: the second is parsed if the first was. */
  function ParseTwice(memory: seq<bv8>, position: nat, size: nat, limits: Limits): (Parsed, Option<Parsed>) {
    var p := Parse(memory, position, size, limits);
    (p, if p.result == RETURN_OK then Some(Parse(memory, p.position, p.size, limits)) else None)
  }

  lemma ParseSerializedTwice(before: seq<bv8>, path: seq<bv8>, name: seq<bv8>, path': seq<bv8>, name': seq<bv8>,
                             rest: seq<bv8>, behind: seq<bv8>, limits: Limits)
    requires IsText(path, limits.path) && IsText(name, limits.name) && IsText(path', limits.path) &&
      IsText(name', limits.name)
    ensures var first, second := Serialized(path, name), Serialized(path', name');
            ParseTwice(before + first + second + (rest + behind), |before|, |first| + |second| + |rest|, limits)
            == (Parsed(RETURN_OK, |before| + |first|, |second| + |rest|, Some(path), Some(name)),
                Some(Parsed(RETURN_OK, |before| + |first| + |second|, |rest|, Some(path'), Some(name'))))
  {
    hide Parse, Serialized;
    var first, second := Serialized(path, name), Serialized(path', name');
    ParseSerialized(before, path, name, second + rest, behind, limits);
    assert before + first + second + (rest + behind) == before + first + ((second + rest) + behind);
    ParseSerialized(before + first, path', name', rest, behind, limits);
  }

  // ---------- the code ----------

  /** A buffer, the pointer into it and the size counter: on reading, what is left; on writing, what has
      been written. */
  class Stream {
    const buffer: array<bv8>
    var position: nat
    var size: nat

    constructor (buffer: array<bv8>, position: nat, size: nat)
      ensures this.buffer == buffer && this.position == position && this.size == size
    {
      this.buffer, this.position, this.size := buffer, position, size;
    }

    /** Writes bytes and moves the pointer and the counter behind them. */
    method Put(bytes: seq<bv8>)
      requires position + |bytes| <= buffer.Length
      modifies this, buffer
      ensures buffer[..] == Overwritten(old(buffer[..]), old(position), bytes)
      ensures position == old(position) + |bytes| && size == old(size) + |bytes|
    {
      for i := 0 to |bytes|
        invariant position == old(position) && size == old(size) && position + |bytes| <= buffer.Length
        invariant buffer[..position] == old(buffer[..position])
        invariant buffer[position + |bytes|..] == old(buffer[position + |bytes|..])
        invariant buffer[position..position + i] == bytes[..i]
      {
        buffer[position + i] := bytes[i];
      }
      position, size := position + |bytes|, size + |bytes|;
    }
  }

  function Overwritten(memory: seq<bv8>, at: nat, bytes: seq<bv8>): seq<bv8>
    requires at + |bytes| <= |memory|
  {
    memory[..at] + bytes + memory[at + |bytes|..]
  }

  /** A path and a name of a command. */
  class FileEntry {
    var path: seq<bv8>
    var name: seq<bv8>

    constructor ()
      ensures path == name == []
    {
      path, name := [], [];
    }
  }

  function Or<T>(o: Option<T>, default: T): T {
    if o.Some? then o.value else default
  }

  method DeSerializeRepositoryAndFilename(s: Stream, limits: Limits, f: FileEntry) returns (r: Result)
    modifies s`position, s`size, f
    ensures var p := Parse(s.buffer[..], old(s.position), old(s.size), limits);
            && r == p.result && s.position == p.position && s.size == p.size
            && f.path == Or(p.path, old(f.path)) && f.name == Or(p.name, old(f.name))
  {
    hide TextLength, Assigned, Less;
    var repositoryLength := TextLength(s.buffer[..], s.position);
    if s.size < repositoryLength {
      return STREAM_TOO_SHORT;
    }
    f.path := Assigned(s.buffer[..], s.position, limits.path);
    s.position := s.position + |f.path| + 1;
    s.size := Less(s.size, |f.path| + 1);
    var filenameLength := TextLength(s.buffer[..], s.position);
    if filenameLength > limits.name {
      return RETURN_OK;
    }
    if s.size < filenameLength {
      return STREAM_TOO_SHORT;
    }
    f.name := Assigned(s.buffer[..], s.position, limits.name);
    s.position := s.position + |f.name| + 1;
    s.size := Less(s.size, |f.name| + 1);
    return RETURN_OK;
  }

  lemma OverwrittenTwice(memory: seq<bv8>, at: nat, a: seq<bv8>, b: seq<bv8>)
    requires at + |a| + |b| <= |memory|
    ensures Overwritten(Overwritten(memory, at, a), at + |a|, b) == Overwritten(memory, at, a + b)
    ensures Overwritten(memory, at, []) == memory
  {
    var m := Overwritten(memory, at, a);
    assert m[..at + |a|] == memory[..at] + a;
    assert m[at + |a| + |b|..] == memory[at + |a| + |b|..];
  }

  lemma AddFacts(a: nat, b: nat)
    requires a < SIZE_SPACE && b < SIZE_SPACE
    ensures Add(a, b) == if a + b < SIZE_SPACE then a + b else a + b - SIZE_SPACE
  {
  }

  ghost predicate PathFits(size: nat, maxSize: nat, path: seq<bv8>) {
    size + |path| + 1 <= maxSize
  }

  /** An empty name never fits, and the name's zero byte is not counted. */
  ghost predicate Fits(size: nat, maxSize: nat, path: seq<bv8>, name: seq<bv8>) {
    PathFits(size, maxSize, path) && name != [] && size + |path| + 1 + |name| <= maxSize
  }

  /** What is written, on success and otherwise. */
  ghost function Written(size: nat, maxSize: nat, path: seq<bv8>, name: seq<bv8>): seq<bv8> {
    if Fits(size, maxSize, path, name) then Serialized(path, name)
    else if PathFits(size, maxSize, path) then path + [0] else []
  }

  /** The names fill the limit to the last byte, so that the name's zero byte comes behind it. */
  ghost predicate Exceeds(size: nat, maxSize: nat, path: seq<bv8>, name: seq<bv8>) {
    Fits(size, maxSize, path, name) && size + |path| + 1 + |name| == maxSize
  }

  /** The room that the limit leaves. */
  function Room(size: nat, maxSize: nat): nat {
    if size <= maxSize then maxSize - size else 0
  }

  /** What is written stays within the limit if and only if the names do not fill it to the last byte,
      and then exactly one byte is written behind it. */
  lemma LimitIsKeptExactly(size: nat, maxSize: nat, path: seq<bv8>, name: seq<bv8>)
    ensures var n := |Written(size, maxSize, path, name)|;
            && (n <= Room(size, maxSize) <==> !Exceeds(size, maxSize, path, name))
            && (Exceeds(size, maxSize, path, name) ==> size + n == maxSize + 1)
    ensures Fits(size, maxSize, path, name) ==>
              (size + |Serialized(path, name)| <= maxSize <==> size + |path| + 1 + |name| < maxSize)
  {
  }

  /** In bytes: when the names are written in full, and what is written otherwise. */
  lemma NamesInBytes(size: nat, maxSize: nat, path: seq<bv8>, name: seq<bv8>)
    ensures Fits(size, maxSize, path, name) <==> |name| > 0 && size + |path| + |name| < maxSize
    ensures Written(size, maxSize, path, name) ==
            if |name| > 0 && size + |path| + |name| < maxSize then path + [0] + name + [0]
            else if size + |path| < maxSize then path + [0] else []
  {
  }

  /** Names and data are written in full if and only if the name is not empty and all of it is within
      the limit ... */
  lemma DataInBytes(size: nat, maxSize: nat, path: seq<bv8>, name: seq<bv8>, data: seq<bv8>)
    ensures var wire := path + [0] + name + [0] + data;
            && (DataFit(size, maxSize, path, name, |data|) <==> |name| > 0 && size + |wire| <= maxSize)
            && (DataFit(size, maxSize, path, name, |data|) ==> WrittenWithData(size, maxSize, path, name, data) == wire)
  {
    NamesInBytes(size, maxSize, path, name);
  }

  /** ... and a source and a target if and only if no name is empty and all but the last zero byte is. */
  lemma BothInBytes(size: nat, maxSize: nat, path: seq<bv8>, name: seq<bv8>, path': seq<bv8>, name': seq<bv8>)
    requires [] !in [path, name, path', name']
    ensures var wire, first := path + [0] + name + [0] + (path' + [0] + name' + [0]), |path| + |name| + 2;
            && (Fits(size, maxSize, path, name) && Fits(size + first, maxSize, path', name')
                <==> size + |wire| <= maxSize + 1)
            && (size + |wire| <= maxSize + 1 ==> WrittenTwice(size, maxSize, path, name, path', name') == wire)
  {
    NamesInBytes(size, maxSize, path, name);
    NamesInBytes(size + |path| + |name| + 2, maxSize, path', name');
  }

  /** Two names of one letter are four bytes, and are written with a limit of three. */
  lemma LimitIsExceeded()
    ensures Fits(0, 3, [65], [66]) && Exceeds(0, 3, [65], [66]) && |Written(0, 3, [65], [66])| == 4
  {
  }

  /** The buffer must have the room that the limit leaves, and one byte more just when the names fill
      the limit to the last byte. */
  method SerializeRepositoryAndFilename(s: Stream, maxSize: nat, path: seq<bv8>, name: seq<bv8>) returns (r: Result)
    requires |path| + 1 < SIZE_SPACE && |name| < SIZE_SPACE && s.size < SIZE_SPACE && maxSize < SIZE_SPACE
    requires s.position + Room(s.size, maxSize) +
      (if Exceeds(s.size, maxSize, path, name) then 1 else 0) <= s.buffer.Length
    modifies s, s.buffer
    ensures r == if Fits(old(s.size), maxSize, path, name) then RETURN_OK else BUFFER_TOO_SHORT
    ensures old(s.position) + |Written(old(s.size), maxSize, path, name)| <= s.buffer.Length
    ensures s.buffer[..] == Overwritten(old(s.buffer[..]), old(s.position), Written(old(s.size), maxSize, path, name))
    ensures s.position == old(s.position) + |Written(old(s.size), maxSize, path, name)|
    ensures s.size == old(s.size) + |Written(old(s.size), maxSize, path, name)|
  {
    hide Add, Overwritten;
    LimitIsKeptExactly(s.size, maxSize, path, name);
    ghost var m, at := s.buffer[..], s.position;
    var nextSize := |path|;
    AddFacts(nextSize + 1, s.size);
    var newSize := Add(nextSize + 1, s.size);
    if newSize <= maxSize && newSize > s.size {
      s.Put(path + [0]);
    } else {
      OverwrittenTwice(m, at, [], []);
      return BUFFER_TOO_SHORT;
    }
    nextSize := |name|;
    AddFacts(nextSize, s.size);
    newSize := Add(nextSize, s.size);
    if newSize <= maxSize && newSize > s.size {
      OverwrittenTwice(m, at, path + [0], name + [0]);
      assert path + [0] + (name + [0]) == Serialized(path, name);
      s.Put(name + [0]);
    } else {
      return BUFFER_TOO_SHORT;
    }
    return RETURN_OK;
  }

  /** The same for a source and a target; nothing is written if a part is empty. */
  ghost function WrittenTwice(size: nat, maxSize: nat, path: seq<bv8>, name: seq<bv8>, path': seq<bv8>,
      name': seq<bv8>): seq<bv8> {
    var first := Written(size, maxSize, path, name);
    if [] in [path, name, path', name'] then []
    else if Fits(size, maxSize, path, name) then first + Written(size + |first|, maxSize, path', name')
    else first
  }

  ghost predicate ExceedsTwice(size: nat, maxSize: nat, path: seq<bv8>, name: seq<bv8>, path': seq<bv8>,
      name': seq<bv8>) {
    && [] !in [path, name, path', name']
    && (|| Exceeds(size, maxSize, path, name)
        || (Fits(size, maxSize, path, name) && Exceeds(size + |Serialized(path, name)|, maxSize, path', name')))
  }

  /** The limit is kept if and only if neither the source fills it to the last byte nor, behind it, the
      target; in the first case the target is refused. */
  lemma LimitIsKeptTwiceExactly(size: nat, maxSize: nat, path: seq<bv8>, name: seq<bv8>, path': seq<bv8>,
      name': seq<bv8>)
    ensures var n := |WrittenTwice(size, maxSize, path, name, path', name')|;
            && (n <= Room(size, maxSize) <==> !ExceedsTwice(size, maxSize, path, name, path', name'))
            && (ExceedsTwice(size, maxSize, path, name, path', name') ==> size + n == maxSize + 1)
    ensures Exceeds(size, maxSize, path, name) ==> !Fits(size + |Serialized(path, name)|, maxSize, path', name')
  {
    LimitIsKeptExactly(size, maxSize, path, name);
    LimitIsKeptExactly(size + |Written(size, maxSize, path, name)|, maxSize, path', name');
  }

  /** And for names that are followed by data: a success keeps the limit, but names that fill it to the
      last byte are written one byte behind it before even empty data are refused. */
  ghost function WrittenWithData(size: nat, maxSize: nat, path: seq<bv8>, name: seq<bv8>, data: seq<bv8>): seq<bv8> {
    var names := Written(size, maxSize, path, name);
    if DataFit(size, maxSize, path, name, |data|) then names + data else names
  }

  ghost predicate DataFit(size: nat, maxSize: nat, path: seq<bv8>, name: seq<bv8>, dataSize: nat) {
    Fits(size, maxSize, path, name) && size + |Serialized(path, name)| + dataSize <= maxSize
  }

  lemma LimitIsKeptWithDataExactly(size: nat, maxSize: nat, path: seq<bv8>, name: seq<bv8>, data: seq<bv8>)
    ensures var n := |WrittenWithData(size, maxSize, path, name, data)|;
            && (n <= Room(size, maxSize) <==> !Exceeds(size, maxSize, path, name))
            && (Exceeds(size, maxSize, path, name) ==>
                  size + n == maxSize + 1 && !DataFit(size, maxSize, path, name, |data|))
  {
    LimitIsKeptExactly(size, maxSize, path, name);
  }

  /** What the source takes of the room, and what that means for the target. */
  lemma RoomForTarget(size: nat, maxSize: nat, path: seq<bv8>, name: seq<bv8>, path': seq<bv8>, name': seq<bv8>)
    ensures var first := Written(size, maxSize, path, name);
            Fits(size, maxSize, path, name) ==>
              && first == Serialized(path, name) && size + |first| <= maxSize + 1
              && |first| + Room(size + |first|, maxSize) ==
                 Room(size, maxSize) + (if Exceeds(size, maxSize, path, name) then 1 else 0)
              && (Exceeds(size, maxSize, path, name) ==> !Exceeds(size + |first|, maxSize, path', name'))
  {
  }

  lemma DataFitAfterNames(size: nat, maxSize: nat, path: seq<bv8>, name: seq<bv8>, dataSize: nat)
    ensures DataFit(size, maxSize, path, name, dataSize) <==>
              Fits(size, maxSize, path, name) && size + |Written(size, maxSize, path, name)| + dataSize <= maxSize
  {
  }

  /** Source and target of a copy or a move. */
  class GenericSourceTargetCommand {
    const source: FileEntry
    const target: FileEntry

    constructor (source: FileEntry, target: FileEntry)
      ensures this.source == source && this.target == target
    {
      this.source, this.target := source, target;
    }

    /** The bytes of the command. */
    function Wire(): seq<bv8>
      reads source, target
    {
      Serialized(source.path, source.name) + Serialized(target.path, target.name)
    }

    ghost predicate AllFit(size: nat, maxSize: nat)
      reads source, target
    {
      && source.path != [] && target.path != []
      && Fits(size, maxSize, source.path, source.name)
      && Fits(size + |Serialized(source.path, source.name)|, maxSize, target.path, target.name)
    }

    /** What is written of it. */
    ghost function Sent(size: nat, maxSize: nat): seq<bv8>
      reads source, target
    {
      WrittenTwice(size, maxSize, source.path, source.name, target.path, target.name)
    }

    /** One part fills the limit to the last byte. */
    ghost predicate Exceeding(size: nat, maxSize: nat)
      reads source, target
    {
      ExceedsTwice(size, maxSize, source.path, source.name, target.path, target.name)
    }

    method Serialize(s: Stream, maxSize: nat) returns (r: Result)
      requires |source.path| + 1 < SIZE_SPACE && |source.name| < SIZE_SPACE
      requires |target.path| + 1 < SIZE_SPACE && |target.name| < SIZE_SPACE
      requires s.size < SIZE_SPACE && maxSize + 1 < SIZE_SPACE
      requires s.position + Room(s.size, maxSize) + (if Exceeding(s.size, maxSize) then 1 else 0) <= s.buffer.Length
      modifies s, s.buffer
      ensures r == RETURN_OK <==> AllFit(old(s.size), maxSize)
      ensures r == RETURN_FAILED <==> [] in [source.path, source.name, target.path, target.name]
      ensures old(s.position) + |Sent(old(s.size), maxSize)| <= s.buffer.Length
      ensures s.buffer[..] == Overwritten(old(s.buffer[..]), old(s.position), Sent(old(s.size), maxSize))
      ensures s.position == old(s.position) + |Sent(old(s.size), maxSize)| &&
        s.size == old(s.size) + |Sent(old(s.size), maxSize)|
      ensures r == RETURN_OK ==> Sent(old(s.size), maxSize) == Wire()
    {
      if |source.name| == 0 || |source.path| == 0 || |target.path| == 0 || |target.name| == 0 {
        OverwrittenTwice(s.buffer[..], s.position, [], []);
        return RETURN_FAILED;
      }
      r := SerializeBoth(s, maxSize);
    }

    /** The rest of serialize, when no part is empty. */
    method SerializeBoth(s: Stream, maxSize: nat) returns (r: Result)
      requires [] !in [source.path, source.name, target.path, target.name]
      requires |source.path| + 1 < SIZE_SPACE && |source.name| < SIZE_SPACE
      requires |target.path| + 1 < SIZE_SPACE && |target.name| < SIZE_SPACE
      requires s.size < SIZE_SPACE && maxSize + 1 < SIZE_SPACE
      requires s.position + Room(s.size, maxSize) + (if Exceeding(s.size, maxSize) then 1 else 0) <= s.buffer.Length
      modifies s, s.buffer
      ensures r == if AllFit(old(s.size), maxSize) then RETURN_OK else BUFFER_TOO_SHORT
      ensures old(s.position) + |Sent(old(s.size), maxSize)| <= s.buffer.Length
      ensures s.buffer[..] == Overwritten(old(s.buffer[..]), old(s.position), Sent(old(s.size), maxSize))
      ensures s.position == old(s.position) + |Sent(old(s.size), maxSize)| &&
        s.size == old(s.size) + |Sent(old(s.size), maxSize)|
    {
      hide Overwritten, Exceeds, Fits, Written, Room, Serialized;
      ghost var m, at, size := s.buffer[..], s.position, s.size;
      var p, n, p', n' := source.path, source.name, target.path, target.name;
      RoomForTarget(size, maxSize, p, n, p', n');
      assert Sent(size, maxSize) == WrittenTwice(size, maxSize, p, n, p', n');
      r := SerializeRepositoryAndFilename(s, maxSize, p, n);
      if r == RETURN_OK {
        ghost var first := Written(size, maxSize, p, n);
        r := SerializeRepositoryAndFilename(s, maxSize, p', n');
        OverwrittenTwice(m, at, first, Written(size + |first|, maxSize, p', n'));
      }
    }

    method DeSerialize(s: Stream, limits: Limits) returns (r: Result)
      requires source != target
      modifies s`position, s`size, source, target
      ensures var (p, q) := ParseTwice(s.buffer[..], old(s.position), old(s.size), limits);
              && source.path == Or(p.path, old(source.path)) && source.name == Or(p.name, old(source.name))
              && match q
                 case None => r == p.result && s.position == p.position && s.size == p.size
                              && target.path == old(target.path) && target.name == old(target.name)
                 case Some(t) => && r == t.result && s.position == t.position && s.size == t.size
                                 && target.path == Or(t.path, old(target.path)) &&
                                   target.name == Or(t.name, old(target.name))
    {
      hide Parse;
      r := DeSerializeRepositoryAndFilename(s, limits, source);
      if r != RETURN_OK {
        return;
      }
      r := DeSerializeRepositoryAndFilename(s, limits, target);
    }
  }

  /** The command that writes a new file; the data is a part of some array that is not copied. */
  class WriteCommand {
    const file: FileEntry
    var fileData: array<bv8>
    var fileDataAt: nat
    var fileDataSize: nat

    constructor (file: FileEntry, fileData: array<bv8>, fileDataAt: nat, fileDataSize: nat)
      ensures this.file == file && this.fileData == fileData && this.fileDataAt == fileDataAt &&
        this.fileDataSize == fileDataSize
    {
      this.file, this.fileData, this.fileDataAt, this.fileDataSize := file, fileData, fileDataAt, fileDataSize;
    }

    /** The data to be written. */
    function Data(): seq<bv8>
      requires fileDataAt + fileDataSize <= fileData.Length
      reads this, fileData
    {
      fileData[fileDataAt..fileDataAt + fileDataSize]
    }

    /** What is written of the command. */
    ghost function Sent(size: nat, maxSize: nat): seq<bv8>
      requires fileDataAt + fileDataSize <= fileData.Length
      reads this, file, fileData
    {
      WrittenWithData(size, maxSize, file.path, file.name, Data())
    }

    method Serialize(s: Stream, maxSize: nat) returns (r: Result)
      requires |file.path| + 1 < SIZE_SPACE && |file.name| < SIZE_SPACE && fileDataSize < SIZE_SPACE
      requires s.size < SIZE_SPACE && maxSize + 1 < SIZE_SPACE
      requires s.position + Room(s.size, maxSize) +
        (if Exceeds(s.size, maxSize, file.path, file.name) then 1 else 0) <= s.buffer.Length
      requires fileDataAt + fileDataSize <= fileData.Length && fileData != s.buffer
      modifies s, s.buffer
      ensures r == if DataFit(old(s.size), maxSize, file.path, file.name, fileDataSize) then RETURN_OK
        else BUFFER_TOO_SHORT
      ensures old(s.position) + |Sent(old(s.size), maxSize)| <= s.buffer.Length
      ensures s.buffer[..] == Overwritten(old(s.buffer[..]), old(s.position), Sent(old(s.size), maxSize))
      ensures s.position == old(s.position) + |Sent(old(s.size), maxSize)| &&
        s.size == old(s.size) + |Sent(old(s.size), maxSize)|
    {
      hide Overwritten, Exceeds, Fits, PathFits, Written, DataFit, Serialized;
      ghost var m, at, size := s.buffer[..], s.position, s.size;
      ghost var names := Written(size, maxSize, file.path, file.name);
      LimitIsKeptExactly(size, maxSize, file.path, file.name);
      DataFitAfterNames(size, maxSize, file.path, file.name, fileDataSize);
      assert |Data()| == fileDataSize;
      r := SerializeRepositoryAndFilename(s, maxSize, file.path, file.name);
      if r == RETURN_OK {
        r := SerializeData(s, maxSize);
        OverwrittenTwice(m, at, names, if r == RETURN_OK then Data() else []);
        assert names + [] == names;
      }
    }

    /** The last part of serialize. */
    method SerializeData(s: Stream, maxSize: nat) returns (r: Result)
      requires fileDataSize < SIZE_SPACE && s.size < SIZE_SPACE && maxSize < SIZE_SPACE
      requires s.position + Room(s.size, maxSize) <= s.buffer.Length
      requires fileDataAt + fileDataSize <= fileData.Length && fileData != s.buffer
      modifies s, s.buffer
      ensures r == if old(s.size) + fileDataSize <= maxSize then RETURN_OK else BUFFER_TOO_SHORT
      ensures var written := if r == RETURN_OK then Data() else [];
              && old(s.position) + |written| <= s.buffer.Length
              && s.buffer[..] == Overwritten(old(s.buffer[..]), old(s.position), written)
              && s.position == old(s.position) + |written| && s.size == old(s.size) + |written|
    {
      hide Add, Overwritten;
      AddFacts(fileDataSize, s.size);
      var newSize := Add(fileDataSize, s.size);
      if newSize > maxSize || newSize < s.size {
        OverwrittenTwice(s.buffer[..], s.position, [], []);
        return BUFFER_TOO_SHORT;
      }
      s.Put(Data());
      return RETURN_OK;
    }

    method DeSerialize(s: Stream, limits: Limits) returns (r: Result)
      modifies s`position, s`size, this, file
      ensures var p := Parse(s.buffer[..], old(s.position), old(s.size), limits);
              && r == p.result
              && file.path == Or(p.path, old(file.path)) && file.name == Or(p.name, old(file.name))
              && (r == RETURN_OK ==> fileData == s.buffer && fileDataAt == p.position && fileDataSize == p.size)
    {
      hide Parse;
      r := DeSerializeRepositoryAndFilename(s, limits, file);
      if r != RETURN_OK {
        return;
      }
      fileDataSize := s.size;
      fileData := s.buffer;
      fileDataAt := s.position;
    }
  }

  // ---------- from the sender to the receiver ----------

  /** A write command that was sent is received with its path, its name, and exactly its data, wherever
      it lies in the receiver's memory. */
  lemma SentWriteIsReceived(memory: seq<bv8>, at: nat, path: seq<bv8>, name: seq<bv8>, data: seq<bv8>, limits: Limits)
    requires IsText(path, limits.path) && IsText(name, limits.name)
    requires at + |Serialized(path, name)| + |data| <= |memory|
    ensures var wire := Serialized(path, name) + data;
            var received := Overwritten(memory, at, wire);
            var p := Parse(received, at, |wire|, limits);
            && p == Parsed(RETURN_OK, at + |Serialized(path, name)|, |data|, Some(path), Some(name))
            && |received| == |memory| && received[p.position..p.position + p.size] == data
  {
    hide Parse, Serialized;
    var behind := memory[at + |Serialized(path, name)| + |data|..];
    assert Overwritten(memory, at, Serialized(path, name) + data) ==
      memory[..at] + Serialized(path, name) + (data + behind);
    ParseSerialized(memory[..at], path, name, data, behind, limits);
  }

  /** So is a command with a source and a target, with nothing left over. */
  lemma SentSourceAndTargetAreReceived(memory: seq<bv8>, at: nat, path: seq<bv8>, name: seq<bv8>,
                                       path': seq<bv8>, name': seq<bv8>, limits: Limits)
    requires IsText(path, limits.path) && IsText(name, limits.name) && IsText(path', limits.path) &&
      IsText(name', limits.name)
    requires at + |Serialized(path, name)| + |Serialized(path', name')| <= |memory|
    ensures var first, second := Serialized(path, name), Serialized(path', name');
            ParseTwice(Overwritten(memory, at, first + second), at, |first + second|, limits)
            == (Parsed(RETURN_OK, at + |first|, |second|, Some(path), Some(name)),
                Some(Parsed(RETURN_OK, at + |first| + |second|, 0, Some(path'), Some(name'))))
  {
    hide Parse, Serialized;
    var first, second := Serialized(path, name), Serialized(path', name');
    var behind := memory[at + |first| + |second|..];
    assert Overwritten(memory, at, first + second) == memory[..at] + first + second + ([] + behind);
    ParseSerializedTwice(memory[..at], path, name, path', name', [], behind, limits);
  }
}
