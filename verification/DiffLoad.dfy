/** Reading a file in and cutting it into lines. */
module DiffLoad {
  import opened DiffLines

  const MAX_BYTES := 2 * 1024 * 1024
  const MAX_LINES := 100000
  const FIRST_CAP := 65536
  const NL: bv8 := 10

  /** A file as the program meets it: whether it opens, the size it is said to have, 0 where none
      is known, the bytes it delivers, and whether a read fails behind them. */
  datatype Source = Source(opens: bool, hint: nat, data: seq<bv8>, breaks: bool) {
    /** A file that cannot be held: it cannot be read to its end, or is too long. */
    predicate Unfit() {
      || !opens || breaks || hint >= MAX_BYTES || |data| >= MAX_BYTES
      || (0 !in data && LineCount(data) > MAX_LINES)
    }
  }

  /** What loading comes to; `held` is the file as it then stands in memory. */
  datatype Loaded =
    | NoFile
    | NoMemory
    | TooBig
    | TooManyLines
    | Binary(held: seq<bv8>)
    | Text(held: seq<bv8>, file: File)

  /** What reading a file in comes to. */
  datatype Reading = Broken | Full | TooLong | Whole(data: seq<bv8>)

  /** The bytes of a file with these lines, each ended by a newline. */
  function Ended(line: seq<Line>): seq<bv8> {
    if line == [] then [] else Ended(line[..|line| - 1]) + line[|line| - 1] + [NL]
  }

  /** The bytes of a file with these lines, the last one perhaps without its newline. */
  function Bytes(line: seq<Line>, noFinalNl: bool): seq<bv8> {
    if noFinalNl && line != [] then Ended(line[..|line| - 1]) + line[|line| - 1] else Ended(line)
  }

  function Newlines(data: seq<bv8>): nat {
    if data == [] then 0 else Newlines(data[..|data| - 1]) + if data[|data| - 1] == NL then 1 else 0
  }

  /** Bytes follow the last newline. */
  predicate Unended(data: seq<bv8>) { data != [] && data[|data| - 1] != NL }

  function LineCount(data: seq<bv8>): nat { Newlines(data) + if Unended(data) then 1 else 0 }

  /** A text file in memory: each newline is turned into the NUL that ends its line. */
  function Blanked(data: seq<bv8>): seq<bv8> {
    seq(|data|, i requires 0 <= i < |data| => if data[i] == NL then 0 else data[i])
  }

  /** The file is this text: nothing of it is lost, and no line holds a newline. */
  ghost predicate Holds(data: seq<bv8>, f: File) {
    && Bytes(f.line, f.noFinalNl) == data
    && (f.noFinalNl <==> Unended(data))
    && forall i | 0 <= i < |f.line| :: NL !in f.line[i]
  }

  /** As many bytes as a read chose to deliver: some, unless the file is at its end. */
  method Chunk(left: nat, room: nat) returns (n: nat)
    requires 0 < room
    ensures n <= left && n <= room && (n == 0 <==> left == 0)
  {
    n :| n <= left && n <= room && (n == 0 <==> left == 0);
  }

  /** Asks for memory, which may run out unless there is enough. */
  method Allocates(enough: bool) returns (ok: bool)
    ensures enough ==> ok
  {
    ok :| enough ==> ok;
  }

  /** Reads a whole file into a buffer that grows as it has to. */
  method ReadIn(s: Source, enough: bool) returns (r: Reading)
    ensures r.Full? ==> !enough
    ensures r.Broken? ==> s.breaks
    ensures r.TooLong? ==> s.hint >= MAX_BYTES || |s.data| >= MAX_BYTES
    ensures r.Whole? ==> r.data == s.data && !s.breaks && s.hint < MAX_BYTES && |s.data| < MAX_BYTES
  {
    var data := s.data;
    var cap := if s.hint > 0 then s.hint + 1 else FIRST_CAP;
    if cap > MAX_BYTES { return TooLong; }
    var some := Allocates(enough);
    if !some { return Full; }
    var buf := [];
    while true
      invariant |buf| <= cap && 0 < cap <= MAX_BYTES && |buf| <= |data| && buf == data[..|buf|]
      decreases |data| - |buf|
    {
      if |buf| == cap {
        if cap >= MAX_BYTES { return TooLong; }
        var more := Allocates(enough);
        if !more { return Full; }
        cap := if cap * 2 > MAX_BYTES then MAX_BYTES else cap * 2;
      }
      var n := Chunk(|data| - |buf|, cap - |buf|);
      if n == 0 {
        if s.breaks { return Broken; }
        break;
      }
      buf := buf + data[|buf|..|buf| + n];
    }
    assert data[..|data|] == data;
    r := Whole(buf);
  }

  /** The lines that newlines end, what follows the last newline, and what this leaves in memory. */
  method Cut(data: seq<bv8>) returns (line: seq<Line>, rest: Line, held: seq<bv8>)
    ensures Ended(line) + rest == data && |line| == Newlines(data) && NL !in rest
    ensures forall k | 0 <= k < |line| :: NL !in line[k]
    ensures held == Blanked(data)
  {
    hide Ended, Newlines, Blanked;
    line, held := [], data;
    var start := 0;
    NothingRead(data);
    for i := 0 to |data|
      invariant 0 <= start <= i && Ended(line) == data[..start] && |line| == Newlines(data[..i])
      invariant NL !in data[start..i]
      invariant forall k | 0 <= k < |line| :: NL !in line[k]
      invariant |held| == |data| == |Blanked(data)|
      invariant forall k | 0 <= k < |data| :: held[k] == if k < i then Blanked(data)[k] else data[k]
    {
      ByteRead(data, i);
      if data[i] == NL {
        held := held[i := 0];
        LineRead(line, data, start, i);
        line, start := line + [data[start..i]], i + 1;
      }
    }
    rest := data[start..];
    assert held == Blanked(data);
    assert data[..|data|] == data && data == data[..start] + rest;
  }

  lemma NothingRead(data: seq<bv8>)
    ensures Ended([]) == data[..0] && Newlines(data[..0]) == 0 && |Blanked(data)| == |data|
  {
  }

  lemma ByteRead(data: seq<bv8>, i: nat)
    requires i < |data|
    ensures Newlines(data[..i + 1]) == Newlines(data[..i]) + if data[i] == NL then 1 else 0
    ensures Blanked(data)[i] == if data[i] == NL then 0 else data[i]
  {
    assert data[..i + 1][..i] == data[..i];
  }

  lemma LineRead(line: seq<Line>, data: seq<bv8>, start: nat, i: nat)
    requires start <= i < |data| && data[i] == NL && Ended(line) == data[..start]
    ensures Ended(line + [data[start..i]]) == data[..i + 1]
  {
    var l := data[start..i];
    assert (line + [l])[..|line|] == line;
    assert data[..i + 1] == data[..start] + l + [NL];
  }

  lemma {:induction false} EndedParts(line: seq<Line>, k: nat)
    requires k < |line| && 0 !in Ended(line)
    ensures 0 !in line[k]
  {
    if k < |line| - 1 {
      EndedParts(line[..|line| - 1], k);
    }
  }

  /** Something stands behind the last newline exactly when the last byte is not one. */
  lemma RestIsUnended(line: seq<Line>, rest: Line, data: seq<bv8>)
    requires Ended(line) + rest == data && NL !in rest
    ensures Unended(data) <==> rest != []
  {
    if rest != [] {
      assert data[|data| - 1] == rest[|rest| - 1] && rest[|rest| - 1] in rest;
    }
  }

  /** Cuts a file into lines and hashes them. */
  method Load(o: Options, s: Source, enough: bool) returns (r: Loaded)
    ensures r.NoFile? || r.TooBig? || r.TooManyLines? ==> s.Unfit()
    ensures r.Binary? || r.Text? ==> !s.Unfit()
    ensures r.NoMemory? ==> !enough
    ensures r.NoFile? ==> !s.opens || s.breaks
    ensures r.Binary? || r.Text? ==> (r.Binary? <==> 0 in s.data)
    ensures r.Binary? ==> r.held == s.data
    ensures r.Text? ==> r.held == Blanked(s.data) && r.file.Valid(o) && Holds(s.data, r.file)
  {
    hide Ended, Newlines, Normal, Hash, Blanked, Unended;
    if !s.opens { return NoFile; }
    var got := ReadIn(s, enough);
    if !got.Whole? { return if got.Broken? then NoFile else if got.Full? then NoMemory else TooBig; }
    var data := got.data;
    if 0 in data { return Binary(data); }
    var line, rest, held := Cut(data);
    RestIsUnended(line, rest, data);
    forall k | 0 <= k < |line|
      ensures 0 !in line[k]
    {
      EndedParts(line, k);
    }
    var noFinalNl := rest != [];
    assert noFinalNl ==> (line + [rest])[..|line|] == line;
    if noFinalNl {
      line := line + [rest];
    }
    if |line| > MAX_LINES { return TooManyLines; }
    var some := Allocates(enough);
    if line != [] && !some { return NoMemory; }
    var hash := [];
    for i := 0 to |line|
      invariant |hash| == i && forall k | 0 <= k < i :: hash[k] == Hash(SEED, Normal(o, line[k]))
    {
      var h := HashLine(o, line[i]);
      hash := hash + [h];
    }
    r := Text(held, File(line, hash, noFinalNl));
  }
}
