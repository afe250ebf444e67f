/**
  The static helpers of the abstract filesystem driver: random file-name
  generation, random file sampling, the non-recursive DeleteFolder overload and
  the two protocol constants.

  The randomness source is an oracle handed in by the caller, and the
  filesystem is a value: the answers that Directory.Exists, File.Exists and
  GetFileSystemInfos give during the call.
 */
module FileSystem {
  import opened Wrappers

  /** The number of times a file name is renamed to erase it from the filesystem table. */
  const FileNameErasePasses: int := 7

  /** The number of times a file or folder erasure is attempted before giving up. */
  const FileNameEraseTries: int := 50

  /** Path.DirectorySeparatorChar on Windows. */
  const DirectorySeparatorChar: char := '\\'

  newtype byte = x: int | 0 <= x < 256

  /** The `count` consecutive ASCII characters starting at `first`. */
  function CharRange(first: char, count: nat): (s: string)
    requires first as int + count <= 128
    ensures |s| == count
    ensures forall i | 0 <= i < count :: s[i] as int == first as int + i
  {
    seq(count, i requires 0 <= i < count => (first as int + i) as char)
  }

  // The alphabet of generated names is the concatenation of these four parts:
  // "0123456789", "abcdefghijklmnopqrstuvwxyz", "ABCDEFGHIJKLMNOPQRSTUVWXYZ"
  // and the symbols.
  const Digits: string := CharRange('0', 10)
  const LowerCaseLetters: string := CharRange('a', 26)
  const UpperCaseLetters: string := CharRange('A', 26)
  const Symbols: string := " _+=-()[]{}',`~!"

  /** The 78 characters a generated name is made of. */
  const ValidFileNameChars: string := Digits + LowerCaseLetters + UpperCaseLetters + Symbols

  /** Device names the generator must not produce as a name without extension. */
  const ProhibitedFileNames: seq<string> := [
    "CON", "PRN", "AUX", "NUL", "COM1", "COM2", "COM3", "COM4",
    "COM5", "COM6", "COM7", "COM8", "COM9", "LPT1", "LPT2", "LPT3",
    "LPT4", "LPT5", "LPT6", "LPT7", "LPT8", "LPT9"
  ]

  /**
    Char.IsWhiteSpace on the Latin-1 range, which is every character a byte
    converts to: tab to carriage return, space, NEL and no-break space.
   */
  predicate IsWhiteSpace(c: char) {
    ('\t' <= c <= '\r') || c == ' ' || c as int == 0x85 || c as int == 0xA0
  }

  /** A character that can appear in a generated name: ASCII, not a dot, and whitespace only if it is a space. */
  predicate IsTameChar(c: char) {
    c as int < 128 && c != '.' && (IsWhiteSpace(c) ==> c == ' ')
  }

  lemma DigitsAreTame(i: int)
    requires 0 <= i < |Digits|
    ensures IsTameChar(Digits[i])
  {
  }

  lemma LowerCaseLettersAreTame(i: int)
    requires 0 <= i < |LowerCaseLetters|
    ensures IsTameChar(LowerCaseLetters[i])
  {
  }

  lemma UpperCaseLettersAreTame(i: int)
    requires 0 <= i < |UpperCaseLetters|
    ensures IsTameChar(UpperCaseLetters[i])
  {
  }

  lemma SymbolsAreTame(i: int)
    requires 0 <= i < |Symbols|
    ensures IsTameChar(Symbols[i])
  {
  }

  /** The alphabet has 78 characters, all of them tame, and the one at index 32 is 'w'. */
  lemma ValidFileNameCharsFacts()
    ensures |ValidFileNameChars| == 78
    ensures ValidFileNameChars[32] == 'w'
    ensures forall i | 0 <= i < |ValidFileNameChars| :: IsTameChar(ValidFileNameChars[i])
  {
    assert ValidFileNameChars[32] == LowerCaseLetters[22];
    forall i | 0 <= i < |ValidFileNameChars| ensures IsTameChar(ValidFileNameChars[i]) {
      if i < 10 {
        assert ValidFileNameChars[i] == Digits[i];
        DigitsAreTame(i);
      } else if i < 36 {
        assert ValidFileNameChars[i] == LowerCaseLetters[i - 10];
        LowerCaseLettersAreTame(i - 10);
      } else if i < 62 {
        assert ValidFileNameChars[i] == UpperCaseLetters[i - 36];
        UpperCaseLettersAreTame(i - 36);
      } else {
        assert ValidFileNameChars[i] == Symbols[i - 62];
        SymbolsAreTame(i - 62);
      }
    }
  }

  // ---------------------------------------------------------------------------
  // Random file names
  // ---------------------------------------------------------------------------

  /** A directory handle; only its full name matters to name generation. */
  datatype DirectoryInfo = DirectoryInfo(fullName: string)

  /** What Directory.Exists and File.Exists answer during the call. */
  datatype Disk = Disk(directories: set<string>, files: set<string>)

  /** Something, file or directory, already exists at `path`. */
  predicate Occupied(disk: Disk, path: string) {
    path in disk.directories || path in disk.files
  }

  /**
    What a helper returns when it does not run out of random draws (the
    source's string result), or that the oracle ran dry while the source
    would still be drawing.
   */
  datatype Drawn = Returned(path: string) | PrngExhausted

  /** The directory part of every generated path: empty for a null directory, else its full name and a separator. */
  function ResultPrefix(info: Option<DirectoryInfo>): (prefix: string)
    ensures info.None? ==> prefix == ""
    ensures info.Some? ==> |prefix| == |info.value.fullName| + 1 && prefix[..|info.value.fullName|] == info.value.fullName
    ensures info.Some? ==> prefix[|prefix| - 1] == DirectorySeparatorChar
  {
    if info.None? then "" else info.value.fullName + [DirectorySeparatorChar]
  }

  /** The character a byte selects: the alphabet at the byte modulo the alphabet's length. */
  function NameByte(b: byte): (r: byte)
    ensures IsTameChar(r as int as char)
  {
    ValidFileNameCharsFacts();
    ValidFileNameChars[b as int % |ValidFileNameChars|] as int as byte
  }

  /** The character a byte selects belongs to the alphabet. */
  lemma NameByteInAlphabet(b: byte)
    ensures (NameByte(b) as int as char) in ValidFileNameChars
  {
    ValidFileNameCharsFacts();
  }

  /**
    The character at the first or last position: a whitespace pick is mapped
    through the alphabet once more (a re-map, not a re-draw).
   */
  function EdgeByte(b: byte): byte {
    var c := NameByte(b);
    if IsWhiteSpace(c as int as char) then NameByte(c) else c
  }

  /** The only whitespace the alphabet holds is the space, and the space maps to 'w'. */
  lemma SpaceRemapsToW(b: byte)
    ensures IsWhiteSpace(NameByte(b) as int as char) ==> NameByte(b) as int == ' ' as int
    ensures NameByte(' ' as int as byte) as int as char == 'w'
    ensures !IsWhiteSpace(EdgeByte(b) as int as char)
  {
    ValidFileNameCharsFacts();
  }

  /** Position j of the mapped buffer, as the `for` loop writes it. */
  function MappedByte(buffer: seq<byte>, j: int): byte
    requires 0 <= j < |buffer|
  {
    if j == 0 || j == |buffer| - 1 then EdgeByte(buffer[j]) else NameByte(buffer[j])
  }

  /** The bytes f(j), ..., f(n - 1): what a loop over the positions j to n - 1 writes. */
  function Tabulate(f: int -> byte, j: nat, n: nat): (s: seq<byte>)
    requires j <= n
    ensures |s| == n - j
    decreases n - j
  {
    if j == n then [] else [f(j)] + Tabulate(f, j + 1, n)
  }

  lemma {:induction false} TabulateAt(f: int -> byte, j: nat, n: nat, t: int)
    requires j <= t < n
    ensures Tabulate(f, j, n)[t - j] == f(t)
    decreases t - j
  {
    if j < t {
      TabulateAt(f, j + 1, n, t);
    }
  }

  /** The buffer after the mapping loop. */
  function MapBuffer(buffer: seq<byte>): (mapped: seq<byte>)
    ensures |mapped| == |buffer|
  {
    Tabulate(j => if 0 <= j < |buffer| then MappedByte(buffer, j) else 0, 0, |buffer|)
  }

  /** Every byte of the mapped buffer is the one the loop writes at its position, and it is ASCII. */
  lemma MapBufferAt(buffer: seq<byte>, j: int)
    requires 0 <= j < |buffer|
    ensures MapBuffer(buffer)[j] == MappedByte(buffer, j)
    ensures MapBuffer(buffer)[j] < 128
  {
    TabulateAt(j => if 0 <= j < |buffer| then MappedByte(buffer, j) else 0, 0, |buffer|, j);
    var c := NameByte(buffer[j]);
    assert IsTameChar(NameByte(c) as int as char);
  }

  /** The mapped buffer holds ASCII bytes only. */
  lemma MapBufferIsAscii(buffer: seq<byte>)
    ensures forall j | 0 <= j < |buffer| :: MapBuffer(buffer)[j] < 128
  {
    forall j | 0 <= j < |buffer| ensures MapBuffer(buffer)[j] < 128 {
      MapBufferAt(buffer, j);
    }
  }

  /** Encoding.UTF8.GetString on a buffer of ASCII bytes: one character per byte. */
  function DecodeAscii(bytes: seq<byte>): (s: string)
    requires forall i | 0 <= i < |bytes| :: bytes[i] < 128
    ensures |s| == |bytes|
  {
    if |bytes| == 0 then [] else [bytes[0] as int as char] + DecodeAscii(bytes[1..])
  }

  /** Each character of the decoded string has the code of the byte at its position. */
  lemma {:induction false} DecodeAsciiAt(bytes: seq<byte>, i: int)
    requires forall i | 0 <= i < |bytes| :: bytes[i] < 128
    requires 0 <= i < |bytes|
    ensures DecodeAscii(bytes)[i] as int == bytes[i] as int
  {
    if i > 0 {
      DecodeAsciiAt(bytes[1..], i - 1);
    }
  }

  /** The name one round of the generator makes of one random buffer. */
  function CandidateName(buffer: seq<byte>): string {
    MapBufferIsAscii(buffer);
    DecodeAscii(MapBuffer(buffer))
  }

  /** Every character comes from the alphabet, and the name neither begins nor ends with whitespace. */
  ghost predicate WellFormedName(name: string) {
    (forall i | 0 <= i < |name| :: name[i] in ValidFileNameChars) &&
    (|name| > 0 ==> !IsWhiteSpace(name[0]) && !IsWhiteSpace(name[|name| - 1]))
  }

  lemma {:induction false} CandidateNameShape(buffer: seq<byte>)
    ensures |CandidateName(buffer)| == |buffer|
    ensures WellFormedName(CandidateName(buffer))
    ensures '.' !in CandidateName(buffer)
  {
    var name := CandidateName(buffer);
    var mapped := MapBuffer(buffer);
    MapBufferIsAscii(buffer);
    forall i | 0 <= i < |name| ensures name[i] in ValidFileNameChars && name[i] != '.' {
      MapBufferAt(buffer, i);
      DecodeAsciiAt(mapped, i);
      assert name[i] == mapped[i] as int as char;
      NameByteInAlphabet(buffer[i]);
      NameByteInAlphabet(NameByte(buffer[i]));
    }
    if |name| > 0 {
      SpaceRemapsToW(buffer[0]);
      SpaceRemapsToW(buffer[|buffer| - 1]);
      MapBufferAt(buffer, 0);
      MapBufferAt(buffer, |buffer| - 1);
      DecodeAsciiAt(mapped, 0);
      DecodeAsciiAt(mapped, |mapped| - 1);
      assert name[0] == mapped[0] as int as char;
      assert name[|name| - 1] == mapped[|mapped| - 1] as int as char;
    }
  }

  /** The index of the last `c` in `s`, or -1 when there is none (String.LastIndexOf). */
  function LastIndexOf(s: string, c: char): (k: int)
    ensures -1 <= k < |s|
  {
    if |s| == 0 then -1
    else if s[|s| - 1] == c then |s| - 1
    else LastIndexOf(s[..|s| - 1], c)
  }

  /** LastIndexOf finds the last occurrence, and gives -1 exactly when there is none. */
  lemma {:induction false} LastIndexOfFindsLast(s: string, c: char)
    ensures LastIndexOf(s, c) >= 0 ==> s[LastIndexOf(s, c)] == c
    ensures forall j | LastIndexOf(s, c) < j < |s| :: s[j] != c
  {
    if |s| > 0 && s[|s| - 1] != c {
      LastIndexOfFindsLast(s[..|s| - 1], c);
    }
  }

  /** Path.GetFileNameWithoutExtension on a bare file name: everything before the last dot. */
  function StripExtension(name: string): string {
    var dot := LastIndexOf(name, '.');
    if dot == -1 then name else name[..dot]
  }

  /** A name with no dot has no extension to strip. */
  lemma StripExtensionOfDotless(name: string)
    requires '.' !in name
    ensures StripExtension(name) == name
  {
    LastIndexOfFindsLast(name, '.');
  }

  /** List.IndexOf with ordinal string equality: the index of the first `s` in `list`, or -1. */
  function IndexOf(list: seq<string>, s: string): int {
    if |list| == 0 then -1
    else if list[0] == s then 0
    else
      var k := IndexOf(list[1..], s);
      if k == -1 then -1 else k + 1
  }

  /** IndexOf finds the first occurrence, and gives -1 exactly when there is none. */
  lemma {:induction false} IndexOfFindsFirst(list: seq<string>, s: string)
    ensures -1 <= IndexOf(list, s) < |list|
    ensures IndexOf(list, s) >= 0 ==>
      list[IndexOf(list, s)] == s && forall i | 0 <= i < IndexOf(list, s) :: list[i] != s
    ensures IndexOf(list, s) == -1 <==> forall i | 0 <= i < |list| :: list[i] != s
  {
    if |list| > 0 && list[0] != s {
      IndexOfFindsFirst(list[1..], s);
      assert forall i | 1 <= i < |list| :: list[i] == list[1..][i - 1];
    }
  }

  /**
    The do-while condition: in `info != null && prohibited || exists`, `&&`
    binds tighter, so the reserved-name test applies only to a non-null
    directory and the existence test always applies. IndexOf compares
    ordinally, so the reserved-name test is case-sensitive.
   */
  predicate MustRetry(info: Option<DirectoryInfo>, disk: Disk, name: string) {
    (info.Some? && IndexOf(ProhibitedFileNames, StripExtension(name)) != -1) || Occupied(disk, ResultPrefix(info) + name)
  }

  /**
    A do-while retry loop from round `round` on: the first round whose name
    `retry` lets through, or |names| when every round is retried.
   */
  function FirstAccepted(names: seq<string>, retry: string -> bool, round: nat): (k: nat)
    requires round <= |names|
    ensures round <= k <= |names|
    ensures forall t | round <= t < k :: retry(names[t])
    ensures k < |names| ==> !retry(names[k])
    decreases |names| - round
  {
    if round == |names| || !retry(names[round]) then round
    else FirstAccepted(names, retry, round + 1)
  }

  /** The names the rounds make of the buffers NextBytes fills, round i of draws[i]. */
  function Candidates(draws: seq<seq<byte>>): (names: seq<string>)
    ensures |names| == |draws|
    ensures forall i | 0 <= i < |draws| :: names[i] == CandidateName(draws[i])
  {
    seq(|draws|, i requires 0 <= i < |draws| => CandidateName(draws[i]))
  }

  /** A do-while generator loop with the condition `retry`, round i being given the buffer draws[i]. */
  function RetryLoop(info: Option<DirectoryInfo>, draws: seq<seq<byte>>, retry: string -> bool): Drawn {
    var names := Candidates(draws);
    var k := FirstAccepted(names, retry, 0);
    if k == |names| then PrngExhausted else Returned(ResultPrefix(info) + names[k])
  }

  /** The result of the source's retry loop. */
  function GeneratedName(info: Option<DirectoryInfo>, disk: Disk, draws: seq<seq<byte>>): Drawn {
    RetryLoop(info, draws, name => MustRetry(info, disk, name))
  }

  /** The properties every generated path has, whichever round produced it. */
  ghost predicate IsGeneratedPath(info: Option<DirectoryInfo>, length: nat, disk: Disk, path: string) {
    var prefix := ResultPrefix(info);
    |path| == |prefix| + length &&
    path[..|prefix|] == prefix &&
    WellFormedName(path[|prefix|..]) &&
    '.' !in path[|prefix|..] &&
    !Occupied(disk, path) &&
    (info.Some? ==> forall i | 0 <= i < |ProhibitedFileNames| :: path[|prefix|..] != ProhibitedFileNames[i])
  }

  /** A name that needs no retry gives a path with every promised property. */
  lemma AcceptedNameIsFresh(info: Option<DirectoryInfo>, disk: Disk, buffer: seq<byte>)
    requires !MustRetry(info, disk, CandidateName(buffer))
    ensures IsGeneratedPath(info, |buffer|, disk, ResultPrefix(info) + CandidateName(buffer))
  {
    var name := CandidateName(buffer);
    var prefix := ResultPrefix(info);
    var path := prefix + name;
    CandidateNameShape(buffer);
    StripExtensionOfDotless(name);
    IndexOfFindsFirst(ProhibitedFileNames, name);
    assert path[..|prefix|] == prefix && path[|prefix|..] == name;
  }

  /** Every path the generator returns is fresh, well formed and, inside a directory, not reserved. */
  lemma GeneratedNameIsFresh(info: Option<DirectoryInfo>, length: nat, disk: Disk, draws: seq<seq<byte>>)
    requires forall i | 0 <= i < |draws| :: |draws[i]| == length
    ensures GeneratedName(info, disk, draws).Returned? ==>
      IsGeneratedPath(info, length, disk, GeneratedName(info, disk, draws).path)
  {
    var k := FirstAccepted(Candidates(draws), name => MustRetry(info, disk, name), 0);
    if k < |draws| {
      AcceptedNameIsFresh(info, disk, draws[k]);
    }
  }

  /** A retry loop stops at the first round whose name is let through. */
  lemma FirstAcceptedIsFirst(names: seq<string>, retry: string -> bool, i: nat)
    requires i < |names|
    requires forall t | 0 <= t < i :: retry(names[t])
    requires !retry(names[i])
    ensures FirstAccepted(names, retry, 0) == i
  {
  }

  /** A retry loop runs through every round exactly when every name is retried. */
  lemma FirstAcceptedNoneIff(names: seq<string>, retry: string -> bool)
    ensures FirstAccepted(names, retry, 0) == |names| <==> forall t | 0 <= t < |names| :: retry(names[t])
  {
    var k := FirstAccepted(names, retry, 0);
    if k < |names| {
      assert !retry(names[k]);
    }
  }

  /** The generator stops at the first round whose name needs no retry. */
  lemma GeneratedNameIsFirstAccepted(info: Option<DirectoryInfo>, disk: Disk, draws: seq<seq<byte>>, i: nat)
    requires i < |draws|
    requires forall t | 0 <= t < i :: MustRetry(info, disk, CandidateName(draws[t]))
    requires !MustRetry(info, disk, CandidateName(draws[i]))
    ensures GeneratedName(info, disk, draws) == Returned(ResultPrefix(info) + CandidateName(draws[i]))
  {
    FirstAcceptedIsFirst(Candidates(draws), name => MustRetry(info, disk, name), i);
  }

  /** The oracle runs dry exactly when every round's name had to be retried. */
  lemma GeneratedNameExhaustedIff(info: Option<DirectoryInfo>, disk: Disk, draws: seq<seq<byte>>)
    ensures GeneratedName(info, disk, draws) == PrngExhausted <==>
      forall t | 0 <= t < |draws| :: MustRetry(info, disk, CandidateName(draws[t]))
  {
    FirstAcceptedNoneIff(Candidates(draws), name => MustRetry(info, disk, name));
  }

  /**
    The `for` loop of GenerateRandomFileName: maps every byte of the buffer
    into the alphabet in place, re-mapping the first and last while they are
    whitespace.
   */
  method MapToValidFileNameChars(resultAry: array<byte>)
    modifies resultAry
    ensures resultAry[..] == MapBuffer(old(resultAry[..]))
  {
    ghost var buffer := resultAry[..];
    var j, k := 0, resultAry.Length;
    while j < k
      invariant 0 <= j <= k
      invariant forall t | 0 <= t < j :: resultAry[t] == MappedByte(buffer, t)
      invariant forall t | j <= t < k :: resultAry[t] == buffer[t]
    {
      resultAry[j] := NameByte(resultAry[j]);
      if j == 0 || j == k - 1 {
        ghost var first := NameByte(buffer[j]);
        SpaceRemapsToW(buffer[j]);
        while IsWhiteSpace(resultAry[j] as int as char)
          invariant resultAry[j] == first || (IsWhiteSpace(first as int as char) && resultAry[j] == NameByte(first))
          invariant forall t | 0 <= t < j :: resultAry[t] == MappedByte(buffer, t)
          invariant forall t | j < t < k :: resultAry[t] == buffer[t]
          decreases if IsWhiteSpace(resultAry[j] as int as char) then 1 else 0
        {
          resultAry[j] := NameByte(resultAry[j]);
        }
      }
      j := j + 1;
    }
    forall t | 0 <= t < k ensures resultAry[t] == MapBuffer(buffer)[t] {
      MapBufferAt(buffer, t);
    }
    assert resultAry[..] == MapBuffer(buffer);
  }

  /**
    One round of GenerateRandomFileName: NextBytes fills the buffer with
    `draw`, the `for` loop maps it in place and the bytes are decoded.
   */
  method NextCandidate(resultAry: array<byte>, draw: seq<byte>) returns (result: string)
    requires resultAry.Length == |draw|
    modifies resultAry
    ensures result == CandidateName(draw)
  {
    forall t | 0 <= t < resultAry.Length {
      resultAry[t] := draw[t];
    }
    assert resultAry[..] == draw;
    MapToValidFileNameChars(resultAry);
    MapBufferIsAscii(draw);
    result := DecodeAscii(resultAry[..]);
  }

  /**
    GenerateRandomFileName: the buffer is refilled in each round (`draws[round]`),
    and the round is repeated while the name is reserved or taken.
   */
  method GenerateRandomFileName(info: Option<DirectoryInfo>, length: nat, disk: Disk, draws: seq<seq<byte>>)
    returns (r: Drawn)
    requires forall i | 0 <= i < |draws| :: |draws[i]| == length
    ensures r == GeneratedName(info, disk, draws)
  {
    var resultPrefix := ResultPrefix(info);
    var resultAry := new byte[length];
    var round := 0;
    while round < |draws|
      invariant 0 <= round <= |draws|
      invariant forall t | 0 <= t < round :: MustRetry(info, disk, CandidateName(draws[t]))
    {
      var result := NextCandidate(resultAry, draws[round]);
      if !MustRetry(info, disk, result) {
        GeneratedNameIsFirstAccepted(info, disk, draws, round);
        return Returned(resultPrefix + result);
      }
      round := round + 1;
    }
    GeneratedNameExhaustedIff(info, disk, draws);
    return PrngExhausted;
  }

  // ---------------------------------------------------------------------------
  // Letter case in the reserved-name test
  // ---------------------------------------------------------------------------

  /** The reserved names are written in upper case: none holds a lower-case letter. */
  lemma ProhibitedFileNamesFacts()
    ensures |ProhibitedFileNames| == 22
    ensures forall i, j | 0 <= i < |ProhibitedFileNames| && 0 <= j < |ProhibitedFileNames[i]| ::
      !('a' <= ProhibitedFileNames[i][j] <= 'z')
  {
  }

  /** Bytes 10 to 35 select the lower-case letters. */
  lemma NameByteOfLowerCase(b: byte)
    requires 10 <= b < 36
    ensures NameByte(b) as int == 'a' as int + b as int - 10
  {
    ValidFileNameCharsFacts();
    assert ValidFileNameChars[b as int] == LowerCaseLetters[b as int - 10];
  }

  /** The buffer [12, 24, 23] makes the name "con". */
  lemma {:induction false} CandidateNameOfCon()
    ensures CandidateName([12, 24, 23]) == "con"
  {
    var buffer: seq<byte> := [12, 24, 23];
    var mapped := MapBuffer(buffer);
    NameByteOfLowerCase(12);
    NameByteOfLowerCase(24);
    NameByteOfLowerCase(23);
    MapBufferIsAscii(buffer);
    forall i | 0 <= i < 3 ensures CandidateName(buffer)[i] == "con"[i] {
      MapBufferAt(buffer, i);
      DecodeAsciiAt(mapped, i);
    }
  }

  /** The name "con" is not on the list, so the ordinal test lets it through. */
  lemma ConIsNotListed()
    ensures IndexOf(ProhibitedFileNames, StripExtension("con")) == -1
  {
    StripExtensionOfDotless("con");
    ProhibitedFileNamesFacts();
    IndexOfFindsFirst(ProhibitedFileNames, "con");
    forall i | 0 <= i < |ProhibitedFileNames| ensures ProhibitedFileNames[i] != "con" {
      if |ProhibitedFileNames[i]| > 0 {
        assert ProhibitedFileNames[i][0] != "con"[0];
      }
    }
  }

  /**
    The ordinal test lets a lower-case device name through: in a directory with
    nothing in it, the buffer [12, 24, 23] gives "con", which ends the loop,
    although "con" names the console device as "CON" does.
   */
  lemma LowerCaseDeviceNameIsAccepted(d: DirectoryInfo)
    ensures CandidateName([12, 24, 23]) == "con"
    ensures UpperInvariant(StripExtension("con")) == ProhibitedFileNames[0]
    ensures GeneratedName(Some(d), Disk({}, {}), [[12, 24, 23]]) == Returned(d.fullName + [DirectorySeparatorChar] + "con")
  {
    CandidateNameOfCon();
    ConEndsTheLoop(d);
    UpperInvariantOfCon();
    GeneratedNameIsFirstAccepted(Some(d), Disk({}, {}), [[12, 24, 23]], 0);
  }

  /** In an empty directory the name "con" needs no retry. */
  lemma ConEndsTheLoop(d: DirectoryInfo)
    ensures !MustRetry(Some(d), Disk({}, {}), "con")
  {
    ConIsNotListed();
  }

  /** "con" in capitals is the first reserved name. */
  lemma UpperInvariantOfCon()
    ensures UpperInvariant(StripExtension("con")) == ProhibitedFileNames[0]
  {
    StripExtensionOfDotless("con");
    var u := UpperInvariant("con");
    assert u[0] == 'C' && u[1] == 'O' && u[2] == 'N';
  }

  /** Char.ToUpperInvariant on the ASCII letters. */
  function ToUpper(c: char): char {
    if 'a' <= c <= 'z' then (c as int - 32) as char else c
  }

  /** String.ToUpperInvariant on ASCII: every lower-case letter replaced by its capital. */
  function UpperInvariant(s: string): (u: string)
    ensures |u| == |s|
  {
    seq(|s|, i requires 0 <= i < |s| => ToUpper(s[i]))
  }

  /** The loop condition with the reserved-name test made case-insensitive. */
  predicate MustRetryIgnoringCase(info: Option<DirectoryInfo>, disk: Disk, name: string) {
    (info.Some? && IndexOf(ProhibitedFileNames, UpperInvariant(StripExtension(name))) != -1) || Occupied(disk, ResultPrefix(info) + name)
  }

  /** The generator with the case-insensitive reserved-name test. */
  function CorrectedGeneratedName(info: Option<DirectoryInfo>, disk: Disk, draws: seq<seq<byte>>): Drawn {
    RetryLoop(info, draws, name => MustRetryIgnoringCase(info, disk, name))
  }

  /**
    With the case-insensitive test, a path returned inside a directory is
    unoccupied and its name, in any letter case, is none of the reserved names.
   */
  lemma CorrectedNameIsNoDevice(d: DirectoryInfo, disk: Disk, draws: seq<seq<byte>>)
    ensures CorrectedGeneratedName(Some(d), disk, draws).Returned? ==>
      var path := CorrectedGeneratedName(Some(d), disk, draws).path;
      var prefix := ResultPrefix(Some(d));
      |prefix| <= |path| && path[..|prefix|] == prefix && !Occupied(disk, path) &&
      forall i | 0 <= i < |ProhibitedFileNames| :: UpperInvariant(path[|prefix|..]) != ProhibitedFileNames[i]
  {
    var names := Candidates(draws);
    var k := FirstAccepted(names, name => MustRetryIgnoringCase(Some(d), disk, name), 0);
    if k < |names| {
      var name := names[k];
      var prefix := ResultPrefix(Some(d));
      CandidateNameShape(draws[k]);
      StripExtensionOfDotless(name);
      IndexOfFindsFirst(ProhibitedFileNames, UpperInvariant(name));
      assert (prefix + name)[..|prefix|] == prefix && (prefix + name)[|prefix|..] == name;
    }
  }

  // ---------------------------------------------------------------------------
  // Random file sampling
  // ---------------------------------------------------------------------------

  /**
    A FileSystemInfo as GetFileSystemInfos lists it: a file with its full
    name, a directory with the entries listing it yields, or a directory whose
    listing throws DirectoryNotFoundException.
   */
  datatype Entry =
    | FileEntry(fullName: string)
    | DirectoryEntry(fullName: string, entries: seq<Entry>)
    | MissingDirectory(fullName: string)

  /** Which bound the entry index is drawn with: the source's `entries.Length - 1`, or every entry. */
  datatype IndexRange = LengthMinusOne | Length

  function MaxValue(count: nat, range: IndexRange): int {
    match range
    case LengthMinusOne => count - 1
    case Length => count
  }

  /**
    The PRNG's Next(maxValue) fed with the raw draw `raw`. The bound is taken
    to be exclusive, like that of Random.Next: 0 when maxValue is 0, else below
    maxValue.
   */
  function Next(raw: nat, maxValue: int): (r: int)
    requires maxValue >= 0
    ensures 0 <= r
    ensures maxValue == 0 ==> r == 0
    ensures maxValue > 0 ==> r < maxValue
    ensures 0 <= raw < maxValue ==> r == raw
  {
    if maxValue == 0 then 0 else raw % maxValue
  }

  /** The indices Next can yield for a directory of `count` entries. */
  predicate Choosable(i: int, count: nat, range: IndexRange) {
    0 <= i < count && (i == 0 || i < MaxValue(count, range))
  }

  /** The directory lists as missing or empty. */
  predicate Unlisted(info: Entry)
    requires !info.FileEntry?
  {
    info.MissingDirectory? || info.entries == []
  }

  /** `s` is what is left of `t` after some draws were taken from its front. */
  predicate IsSuffix(s: seq<nat>, t: seq<nat>) {
    |s| <= |t| && s == t[|t| - |s|..]
  }

  /** A descent from `e` through choosable entries can end at the file whose full name is `p`. */
  ghost predicate Yields(e: Entry, p: string, range: IndexRange)
    decreases e
  {
    match e
    case FileEntry(name) => name == p
    case DirectoryEntry(_, entries) =>
      exists i | Choosable(i, |entries|, range) :: Yields(entries[i], p, range)
    case MissingDirectory(_) => false
  }

  /** GetRandomFile on a directory: "" for a missing or empty listing, else the retry loop. */
  ghost function RandomFile(info: Entry, draws: seq<nat>, range: IndexRange): (res: (Drawn, seq<nat>))
    requires !info.FileEntry?
    ensures IsSuffix(res.1, draws)
    ensures res.0 == Returned("") <==> Unlisted(info)
    decreases |draws|, 1
  {
    if Unlisted(info) then (Returned(""), draws)
    else PickEntry(info.entries, draws, range)
  }

  /** The `while (result.Length == 0)` loop over a non-empty listing. */
  ghost function PickEntry(entries: seq<Entry>, draws: seq<nat>, range: IndexRange): (res: (Drawn, seq<nat>))
    requires |entries| > 0
    ensures IsSuffix(res.1, draws)
    ensures res.0.Returned? ==> res.0.path != ""
    decreases |draws|, 0
  {
    if |draws| == 0 then (PrngExhausted, draws)
    else
      var index := Next(draws[0], MaxValue(|entries|, range));
      var e := entries[index];
      if e.FileEntry? then
        if e.fullName != "" then (Returned(e.fullName), draws[1..])
        else PickEntry(entries, draws[1..], range)
      else
        var (sub, rest) := RandomFile(e, draws[1..], range);
        if sub.PrngExhausted? then (PrngExhausted, rest)
        else if sub.path != "" then (Returned(sub.path), rest)
        else PickEntry(entries, rest, range)
  }

  /** Every non-empty path GetRandomFile returns is a file that a descent through drawable entries reaches. */
  lemma {:induction false} RandomFileSound(info: Entry, draws: seq<nat>, range: IndexRange)
    requires !info.FileEntry?
    ensures RandomFile(info, draws, range).0.Returned? && RandomFile(info, draws, range).0.path != "" ==>
      Yields(info, RandomFile(info, draws, range).0.path, range)
    decreases |draws|, 1
  {
    if !Unlisted(info) {
      PickEntrySound(info.entries, draws, range);
    }
  }

  /** Every path the retry loop returns is reached through an entry that Next can draw. */
  lemma {:induction false} PickEntrySound(entries: seq<Entry>, draws: seq<nat>, range: IndexRange)
    requires |entries| > 0
    ensures PickEntry(entries, draws, range).0.Returned? ==>
      exists i | Choosable(i, |entries|, range) :: Yields(entries[i], PickEntry(entries, draws, range).0.path, range)
    decreases |draws|, 0
  {
    if |draws| > 0 {
      var index := Next(draws[0], MaxValue(|entries|, range));
      assert Choosable(index, |entries|, range);
      var e := entries[index];
      if e.FileEntry? {
        if e.fullName == "" {
          PickEntrySound(entries, draws[1..], range);
        }
      } else {
        var (sub, rest) := RandomFile(e, draws[1..], range);
        RandomFileSound(e, draws[1..], range);
        if sub.Returned? && sub.path == "" {
          PickEntrySound(entries, rest, range);
        }
      }
    }
  }

  /**
    GetRandomFile: lists the directory, then draws an index with
    `prng.Next(entries.Length - 1)` until a file, or a subdirectory that
    yields a file, is chosen.
   */
  method GetRandomFile(info: Entry, draws: seq<nat>) returns (r: Drawn, rest: seq<nat>)
    requires !info.FileEntry?
    ensures (r, rest) == RandomFile(info, draws, LengthMinusOne)
    ensures r == Returned("") <==> Unlisted(info)
    decreases |draws|
  {
    if info.MissingDirectory? {
      return Returned(""), draws;
    }
    var entries := info.entries;
    if |entries| == 0 {
      return Returned(""), draws;
    }
    ghost var goal := PickEntry(entries, draws, LengthMinusOne);
    var result := "";
    rest := draws;
    while |result| == 0
      invariant IsSuffix(rest, draws)
      invariant result == "" ==> PickEntry(entries, rest, LengthMinusOne) == goal
      invariant result != "" ==> goal == (Returned(result), rest)
      decreases |rest|
    {
      if |rest| == 0 {
        return PrngExhausted, rest;
      }
      var index := Next(rest[0], |entries| - 1);
      if !entries[index].FileEntry? {
        var sub, after := GetRandomFile(entries[index], rest[1..]);
        if sub.PrngExhausted? {
          return PrngExhausted, after;
        }
        result, rest := sub.path, after;
      } else {
        result, rest := entries[index].fullName, rest[1..];
      }
    }
    r := Returned(result);
  }

  /** A first draw equal to a choosable index picks that entry. */
  lemma PickEntryFirstDraw(entries: seq<Entry>, i: nat, w: seq<nat>, range: IndexRange)
    requires Choosable(i, |entries|, range)
    ensures entries[i].FileEntry? && entries[i].fullName != "" ==>
      PickEntry(entries, [i] + w, range).0 == Returned(entries[i].fullName)
    ensures !entries[i].FileEntry? && RandomFile(entries[i], w, range).0.Returned? && RandomFile(entries[i], w, range).0.path != "" ==>
      PickEntry(entries, [i] + w, range).0 == RandomFile(entries[i], w, range).0
  {
    assert Next(i, MaxValue(|entries|, range)) == i;
    assert ([i] + w)[0] == i && ([i] + w)[1..] == w;
  }

  /** A listed, non-empty directory hands its draws to the retry loop. */
  lemma RandomFileOfListed(d: Entry, draws: seq<nat>, range: IndexRange)
    requires d.DirectoryEntry? && |d.entries| > 0
    ensures RandomFile(d, draws, range) == PickEntry(d.entries, draws, range)
  {
  }

  /** Every file a descent can end at is returned for some sequence of draws. */
  lemma {:induction false} YieldsIsSampled(d: Entry, p: string, range: IndexRange)
    requires !d.FileEntry? && Yields(d, p, range) && p != ""
    ensures exists draws :: RandomFile(d, draws, range).0 == Returned(p)
    decreases d
  {
    var entries := d.entries;
    var i :| Choosable(i, |entries|, range) && Yields(entries[i], p, range);
    var draws: seq<nat>;
    if entries[i].FileEntry? {
      draws := [i];
      PickEntryFirstDraw(entries, i, [], range);
      assert draws == [i] + [];
    } else {
      YieldsIsSampled(entries[i], p, range);
      var w :| RandomFile(entries[i], w, range).0 == Returned(p);
      draws := [i] + w;
      PickEntryFirstDraw(entries, i, w, range);
    }
    RandomFileOfListed(d, draws, range);
    assert RandomFile(d, draws, range).0 == Returned(p);
  }

  /** A directory holding exactly one file returns that file on the first draw. */
  lemma SingleFileIsSampled(d: Entry, f: string, draws: seq<nat>, range: IndexRange)
    requires d.DirectoryEntry? && d.entries == [FileEntry(f)] && f != ""
    requires |draws| > 0
    ensures RandomFile(d, draws, range) == (Returned(f), draws[1..])
  {
  }

  /** The directory C:\d holding the files a and b, in that order. */
  function TwoFiles(): Entry {
    DirectoryEntry("C:\\d", [FileEntry("C:\\d\\a"), FileEntry("C:\\d\\b")])
  }

  /** The directory C:\d holding an empty directory e and then the file b. */
  function EmptyDirectoryThenFile(): Entry {
    DirectoryEntry("C:\\d", [DirectoryEntry("C:\\d\\e", []), FileEntry("C:\\d\\b")])
  }

  /** As written, the last of two entries is never chosen: b is never returned. */
  lemma LastEntryIsNeverSampled(draws: seq<nat>)
    ensures Yields(TwoFiles(), "C:\\d\\b", Length)
    ensures RandomFile(TwoFiles(), draws, LengthMinusOne).0 != Returned("C:\\d\\b")
  {
    var entries := TwoFiles().entries;
    assert Choosable(1, |entries|, Length) && Yields(entries[1], "C:\\d\\b", Length);
    RandomFileSound(TwoFiles(), draws, LengthMinusOne);
    assert forall i | Choosable(i, |entries|, LengthMinusOne) :: i == 0;
  }

  /** As written, a directory whose only file is its last entry is never left: every oracle runs dry. */
  lemma EmptyFirstEntryNeverReturns(draws: seq<nat>)
    ensures Yields(EmptyDirectoryThenFile(), "C:\\d\\b", Length)
    ensures RandomFile(EmptyDirectoryThenFile(), draws, LengthMinusOne).0 == PrngExhausted
  {
    var entries := EmptyDirectoryThenFile().entries;
    assert Choosable(1, |entries|, Length) && Yields(entries[1], "C:\\d\\b", Length);
    PickEntrySound(entries, draws, LengthMinusOne);
    assert forall i | Choosable(i, |entries|, LengthMinusOne) :: i == 0;
  }

  /** Drawing among all entries, the corrected bound, reaches b in both directories with the draw 1. */
  lemma CorrectedRangeReturnsLastEntry()
    ensures RandomFile(TwoFiles(), [1], Length).0 == Returned("C:\\d\\b")
    ensures RandomFile(EmptyDirectoryThenFile(), [1], Length).0 == Returned("C:\\d\\b")
  {
    assert [1] == [1] + [];
    PickEntryFirstDraw(TwoFiles().entries, 1, [], Length);
    RandomFileOfListed(TwoFiles(), [1], Length);
    PickEntryFirstDraw(EmptyDirectoryThenFile().entries, 1, [], Length);
    RandomFileOfListed(EmptyDirectoryThenFile(), [1], Length);
  }

  // ---------------------------------------------------------------------------
  // Folder deletion
  // ---------------------------------------------------------------------------

  /** The effect of the abstract DeleteFolder(info, recursive) of a concrete driver on the disk. */
  datatype FileSystemDriver = FileSystemDriver(deleteFolder: (Disk, DirectoryInfo, bool) -> Disk)

  /** The one-argument DeleteFolder overload deletes recursively. */
  function DeleteFolder(driver: FileSystemDriver, disk: Disk, info: DirectoryInfo): (after: Disk)
    ensures after == driver.deleteFolder(disk, info, true)
  {
    driver.deleteFolder(disk, info, true)
  }
}
