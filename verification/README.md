# Eraser: random names, random file sampling and erasure-target binding

This project models two parts of Eraser's plugin layer in Dafny.

- **The static helpers of the abstract `FileSystem` driver**
  (`pluginsRewrite/Eraser.Plugins/ExtensionPoints/FileSystem.cs`), in module `FileSystem`, file `file_system.dfy`:
  - `GenerateRandomFileName` makes a random name for renaming a file before it is deleted. The name never collides with an existing entry. Inside a directory, its name without extension is none of the 22 upper-case reserved device names; the comparison is ordinal, so a case variant such as `con` gets through (see Findings).
  - `GetRandomFile` picks a file below a directory by random descent.
  - The one-argument `DeleteFolder` overload.
  - The protocol constants `FileNameErasePasses` (7, `FileSystem.cs:259`) and `FileNameEraseTries` (50, `FileSystem.cs:265`), declared as constants of the same names and values.
- **`ErasureTargetBase`**
  (`pluginsRewrite/Eraser.DefaultPlugins/ErasureTargets/ErasureTargetBase.cs`), in module `ErasureTargets`, file `erasure_target.dfy`. It is the class that binds an erasure target to one erasure method:
  - the validating `Method` property;
  - the two constructors;
  - `GetObjectData`;
  - `EffectiveMethod`.

`wrappers.dfy` holds the `Option`, `Result` and `Outcome` types. They stand for null references and exceptions.

How the outside world is modelled:

- **The active PRNG** is an oracle passed in by the caller.
  - `GenerateRandomFileName` receives one byte buffer per round of its `do … while` loop. Each buffer is exactly as long as the name, because that is what `NextBytes` fills.
  - `GetRandomFile` receives raw numbers. Each one becomes an index through `Next`, which stands for the PRNG's `Next(maxValue)`. The `Prng` class is not part of this model; its bound is taken to be exclusive, like that of `Random.Next`. So `Next` gives 0 when `maxValue` is 0 and a number below `maxValue` otherwise. Every index in that range comes from some raw number, so a statement about all oracles holds for every PRNG.
  - When the oracle runs out while the source would still be drawing, the result is `PrngExhausted`.
- **The filesystem** is a value:
  - `Disk` holds the paths at which `Directory.Exists` and `File.Exists` answer true.
  - `Entry` is a tree of what `GetFileSystemInfos` lists. A `MissingDirectory` is a directory whose listing throws `DirectoryNotFoundException`.
- **The host's globals** are a `Registrar` value: the registrar's `Default` sentinel, and the host's methods keyed by GUID.
- **`SupportsMethod`** of the concrete target kind is a function-valued constant of the target.

The model follows the code at these points, where a reader might expect otherwise:

- The alphabet contains a space (`FileSystem.cs:70`).
- A whitespace first or last character is mapped through the alphabet once more, not redrawn. The space maps to `'w'`, so the inner loop runs at most once.
- The reserved-name test is case-sensitive.
- The reserved-name test applies only when a directory is given, because `&&` binds tighter than `||` (`FileSystem.cs:85-87`).
- `GetRandomFile` draws its index with `Next(entries.Length - 1)`, not among all entries (see Findings).
- The base `EffectiveMethod` raises `InvalidOperationException` for the `Default` sentinel instead of resolving it. Concrete target kinds may override it, but they are not part of this model.

## Model

| member | source | states |
|---|---|---|
| `FileSystem.ValidFileNameCharsFacts` | pluginsRewrite/Eraser.Plugins/ExtensionPoints/FileSystem.cs:69-70 | The alphabet has 78 characters. Every one is ASCII and none is a dot. Its only whitespace is the space. The character at index 32 is `'w'`. |
| `FileSystem.ResultPrefix` | pluginsRewrite/Eraser.Plugins/ExtensionPoints/FileSystem.cs:52-53 | The prefix is empty for a null directory. Otherwise it is the directory's full name followed by the separator `\`. |
| `FileSystem.ProhibitedFileNamesFacts` | pluginsRewrite/Eraser.Plugins/ExtensionPoints/FileSystem.cs:58-62 | The reserved list holds 22 names, all written without lower-case letters. |
| `FileSystem.NameByte` | pluginsRewrite/Eraser.Plugins/ExtensionPoints/FileSystem.cs:73-74 | Every byte maps to a character of the alphabet. That character is ASCII, so the `(byte)` cast loses nothing. |
| `FileSystem.NameByteInAlphabet` | pluginsRewrite/Eraser.Plugins/ExtensionPoints/FileSystem.cs:73-74 | The character a byte selects is one of the alphabet's characters. |
| `FileSystem.NameByteOfLowerCase` | pluginsRewrite/Eraser.Plugins/ExtensionPoints/FileSystem.cs:69-74 | Bytes 10 to 35 select the lower-case letters `a` to `z`. |
| `FileSystem.SpaceRemapsToW` | pluginsRewrite/Eraser.Plugins/ExtensionPoints/FileSystem.cs:76-80 | A mapped byte is whitespace only if it is the space. The space maps to `'w'`. A first or last character is never whitespace, so the inner loop ends after at most one step. |
| `FileSystem.EdgeByte` | pluginsRewrite/Eraser.Plugins/ExtensionPoints/FileSystem.cs:76-80 | Definition: the first or last character is mapped once more when its first mapping is whitespace. `SpaceRemapsToW` shows one re-map always suffices. |
| `FileSystem.MappedByte` | pluginsRewrite/Eraser.Plugins/ExtensionPoints/FileSystem.cs:71-81 | Definition: the byte the `for` loop writes at a position, an edge byte at the first and last position and a single mapping elsewhere. |
| `FileSystem.MapBufferAt` | pluginsRewrite/Eraser.Plugins/ExtensionPoints/FileSystem.cs:71-81 | Every position of the mapped buffer holds what the `for` loop writes there: an edge byte at the first and last position, a single mapping elsewhere. That byte is ASCII. |
| `FileSystem.DecodeAscii` | pluginsRewrite/Eraser.Plugins/ExtensionPoints/FileSystem.cs:83 | `Encoding.UTF8.GetString` on an ASCII buffer gives a string of the buffer's length. |
| `FileSystem.DecodeAsciiAt` | pluginsRewrite/Eraser.Plugins/ExtensionPoints/FileSystem.cs:83 | Decoding an ASCII buffer gives one character per byte, each with its byte's code. |
| `FileSystem.CandidateName` | pluginsRewrite/Eraser.Plugins/ExtensionPoints/FileSystem.cs:66-83 | Definition: the name one round makes of one buffer, the decoding of the mapped buffer. `CandidateNameShape` states its properties. |
| `FileSystem.MapToValidFileNameChars` | pluginsRewrite/Eraser.Plugins/ExtensionPoints/FileSystem.cs:71-81 | The in-place loop leaves the buffer equal to the mapping of its old contents, position by position. |
| `FileSystem.NextCandidate` | pluginsRewrite/Eraser.Plugins/ExtensionPoints/FileSystem.cs:66-83 | One round fills the buffer with the draw, maps it in place and decodes it, giving exactly the candidate name of that draw. |
| `FileSystem.CandidateNameShape` | pluginsRewrite/Eraser.Plugins/ExtensionPoints/FileSystem.cs:56-83 | The name made from one buffer has the buffer's length and uses only alphabet characters. It neither starts nor ends with whitespace, and it contains no dot. |
| `FileSystem.LastIndexOf` | pluginsRewrite/Eraser.Plugins/ExtensionPoints/FileSystem.cs:86 | `String.LastIndexOf`: the result is -1 or a position inside the string. `LastIndexOfFindsLast` states what it finds. |
| `FileSystem.LastIndexOfFindsLast` | pluginsRewrite/Eraser.Plugins/ExtensionPoints/FileSystem.cs:86 | The index found holds the character and no later position does; -1 therefore means the character does not occur. |
| `FileSystem.StripExtension` | pluginsRewrite/Eraser.Plugins/ExtensionPoints/FileSystem.cs:86 | Definition: `Path.GetFileNameWithoutExtension` of a bare name keeps everything before its last dot, or the whole name when it has none. |
| `FileSystem.StripExtensionOfDotless` | pluginsRewrite/Eraser.Plugins/ExtensionPoints/FileSystem.cs:86 | Stripping the extension from a name without a dot leaves the name unchanged, so the reserved-name test sees the whole generated name. |
| `FileSystem.IndexOf` | pluginsRewrite/Eraser.Plugins/ExtensionPoints/FileSystem.cs:86 | Definition: `List.IndexOf` with ordinal string equality. `IndexOfFindsFirst` states what it finds. |
| `FileSystem.IndexOfFindsFirst` | pluginsRewrite/Eraser.Plugins/ExtensionPoints/FileSystem.cs:86 | `IndexOf` returns the first position holding the name, and -1 if and only if no position holds it. |
| `FileSystem.MustRetry` | pluginsRewrite/Eraser.Plugins/ExtensionPoints/FileSystem.cs:85-87 | Definition: the do-while condition. `&&` binds tighter than the logical or, so the reserved-name test applies only with a directory and the existence test always applies. The reserved-name test is ordinal, hence case-sensitive. |
| `FileSystem.FirstAccepted` | pluginsRewrite/Eraser.Plugins/ExtensionPoints/FileSystem.cs:64-87 | The do-while retry loop stops at a round whose name is let through, and every round before it was retried; it runs past the end only if every round was retried. |
| `FileSystem.Candidates` | pluginsRewrite/Eraser.Plugins/ExtensionPoints/FileSystem.cs:64-83 | Round i makes the candidate name of buffer i, one name per buffer. |
| `FileSystem.RetryLoop` | pluginsRewrite/Eraser.Plugins/ExtensionPoints/FileSystem.cs:64-88 | Definition: the do-while loop with a given condition. It returns the prefix plus the first name the condition lets through, or runs the oracle dry. |
| `FileSystem.GeneratedName` | pluginsRewrite/Eraser.Plugins/ExtensionPoints/FileSystem.cs:64-88 | Definition: the source's loop, `RetryLoop` with `MustRetry`. The lemmas below and `GenerateRandomFileName` state its properties. |
| `FileSystem.FirstAcceptedIsFirst` | pluginsRewrite/Eraser.Plugins/ExtensionPoints/FileSystem.cs:64-87 | If every round before round i is retried and round i is not, the loop stops exactly at round i. |
| `FileSystem.FirstAcceptedNoneIff` | pluginsRewrite/Eraser.Plugins/ExtensionPoints/FileSystem.cs:64-87 | The loop runs through every round if and only if every round's name is retried. |
| `FileSystem.AcceptedNameIsFresh` | pluginsRewrite/Eraser.Plugins/ExtensionPoints/FileSystem.cs:52-88 | A name that ends the loop gives a path made of the prefix and a well-formed, dotless name of the buffer's length, at which nothing exists and which, inside a directory, is none of the reserved names. |
| `FileSystem.GeneratedNameIsFresh` | pluginsRewrite/Eraser.Plugins/ExtensionPoints/FileSystem.cs:52-88 | A returned path is the prefix followed by a well-formed name of exactly `length` characters. Nothing exists at that path. When a directory is given, the name is none of the 22 reserved names. |
| `FileSystem.GeneratedNameIsFirstAccepted` | pluginsRewrite/Eraser.Plugins/ExtensionPoints/FileSystem.cs:64-88 | The result is the name of the first round whose name needs no retry. Generation therefore ends as soon as one such draw comes. |
| `FileSystem.GeneratedNameExhaustedIff` | pluginsRewrite/Eraser.Plugins/ExtensionPoints/FileSystem.cs:64-87 | The oracle runs dry if and only if every round's name was reserved or taken. |
| `FileSystem.GenerateRandomFileName` | pluginsRewrite/Eraser.Plugins/ExtensionPoints/FileSystem.cs:46-89 | The imperative loop fills the buffer, maps it in place and decodes it, and it retries while the name is reserved or taken. Its result equals the retry semantics `GeneratedName`, so any path it returns has every property that `GeneratedNameIsFresh` proves. |
| `FileSystem.CandidateNameOfCon` | pluginsRewrite/Eraser.Plugins/ExtensionPoints/FileSystem.cs:69-83 | The buffer `[12, 24, 23]` makes the name `con`. |
| `FileSystem.ConIsNotListed` | pluginsRewrite/Eraser.Plugins/ExtensionPoints/FileSystem.cs:86 | `con` is not on the reserved list, so the ordinal `IndexOf` gives -1. |
| `FileSystem.ConEndsTheLoop` | pluginsRewrite/Eraser.Plugins/ExtensionPoints/FileSystem.cs:85-87 | In an empty directory, the name `con` needs no retry. |
| `FileSystem.UpperInvariantOfCon` | pluginsRewrite/Eraser.Plugins/ExtensionPoints/FileSystem.cs:58-62 | `con` in capitals is the first reserved name, `CON`. |
| `FileSystem.LowerCaseDeviceNameIsAccepted` | pluginsRewrite/Eraser.Plugins/ExtensionPoints/FileSystem.cs:64-88 | In an empty directory, the draw `[12, 24, 23]` makes the generator return the path ending in `con`, a case variant of the reserved `CON`. |
| `FileSystem.MustRetryIgnoringCase` | pluginsRewrite/Eraser.Plugins/ExtensionPoints/FileSystem.cs:85-87 | Definition: the loop condition with the reserved-name test made case-insensitive, by comparing the name in capitals. |
| `FileSystem.CorrectedGeneratedName` | pluginsRewrite/Eraser.Plugins/ExtensionPoints/FileSystem.cs:64-88 | Definition: the retry loop with the case-insensitive condition. |
| `FileSystem.CorrectedNameIsNoDevice` | pluginsRewrite/Eraser.Plugins/ExtensionPoints/FileSystem.cs:64-88 | With the case-insensitive condition, a path returned inside a directory starts with the prefix and is unoccupied. Its name in capitals is none of the 22 reserved names. |
| `FileSystem.Next` | pluginsRewrite/Eraser.Plugins/ExtensionPoints/FileSystem.cs:116 | The index drawn is 0 when the bound is 0 and below the bound otherwise. A raw draw already in range is the index itself. |
| `FileSystem.RandomFile` | pluginsRewrite/Eraser.Plugins/ExtensionPoints/FileSystem.cs:96-124 | The result is `""` if and only if the directory is missing or empty. Only a suffix of the draws is left. |
| `FileSystem.PickEntry` | pluginsRewrite/Eraser.Plugins/ExtensionPoints/FileSystem.cs:111-123 | The loop over a non-empty listing returns only non-empty paths and leaves only a suffix of the draws. |
| `FileSystem.RandomFileSound` | pluginsRewrite/Eraser.Plugins/ExtensionPoints/FileSystem.cs:96-124 | A non-empty path returned for a directory is a file that a descent through drawable entries reaches. |
| `FileSystem.PickEntrySound` | pluginsRewrite/Eraser.Plugins/ExtensionPoints/FileSystem.cs:111-123 | Every path the retry loop returns is reached through an entry that `Next` can draw. |
| `FileSystem.RandomFileOfListed` | pluginsRewrite/Eraser.Plugins/ExtensionPoints/FileSystem.cs:108-114 | A listed, non-empty directory hands all its draws to the retry loop. |
| `FileSystem.PickEntryFirstDraw` | pluginsRewrite/Eraser.Plugins/ExtensionPoints/FileSystem.cs:114-121 | A first draw equal to a drawable index picks that entry: its file name, or the file its subdirectory returns. |
| `FileSystem.GetRandomFile` | pluginsRewrite/Eraser.Plugins/ExtensionPoints/FileSystem.cs:96-124 | The recursive method with its retry loop returns exactly what `RandomFile` describes. It returns `""` exactly for a missing or empty directory. By `RandomFileSound`, any other path it returns is a file reached by descent. |
| `FileSystem.YieldsIsSampled` | pluginsRewrite/Eraser.Plugins/ExtensionPoints/FileSystem.cs:111-123 | Every file that a descent through drawable entries reaches is returned for some sequence of draws. With `RandomFileSound`, the returnable files are exactly those. |
| `FileSystem.SingleFileIsSampled` | pluginsRewrite/Eraser.Plugins/ExtensionPoints/FileSystem.cs:108-121 | A directory holding a single file returns that file on the first draw. |
| `FileSystem.LastEntryIsNeverSampled` | pluginsRewrite/Eraser.Plugins/ExtensionPoints/FileSystem.cs:116 | In a directory with two files, the second file is never returned, whatever the draws. |
| `FileSystem.EmptyFirstEntryNeverReturns` | pluginsRewrite/Eraser.Plugins/ExtensionPoints/FileSystem.cs:114-121 | Take a directory whose first entry is an empty directory and whose second entry is a file. With any draws, it never returns. |
| `FileSystem.CorrectedRangeReturnsLastEntry` | pluginsRewrite/Eraser.Plugins/ExtensionPoints/FileSystem.cs:116 | With the index drawn among all entries, both example directories return their last file. |
| `FileSystem.DeleteFolder` | pluginsRewrite/Eraser.Plugins/ExtensionPoints/FileSystem.cs:169-172 | The one-argument overload has exactly the effect of the driver's `DeleteFolder(info, true)`. |
| `ErasureTargets.CheckMethod` | pluginsRewrite/Eraser.DefaultPlugins/ErasureTargets/ErasureTargetBase.cs:97-99 | The setter's check passes if and only if the target kind supports the method. A failure is an `ArgumentException`. |
| `ErasureTargets.ResolveStoredMethod` | pluginsRewrite/Eraser.DefaultPlugins/ErasureTargets/ErasureTargetBase.cs:59-63 | A missing `"Method"` value is a `SerializationException`. `Guid.Empty` resolves to the `Default` sentinel. Any other GUID resolves to the host's method if it is registered and fails otherwise. |
| `ErasureTargets.ErasureTarget.Bind` | pluginsRewrite/Eraser.DefaultPlugins/ErasureTargets/ErasureTargetBase.cs:100 | The field is stored only after the check has passed, so a new target always holds a supported method. |
| `ErasureTargets.ErasureTarget.Create` | pluginsRewrite/Eraser.DefaultPlugins/ErasureTargets/ErasureTargetBase.cs:85-88 | The default constructor succeeds if and only if the kind supports the `Default` sentinel. The target it builds is bound to that sentinel. Otherwise it raises `ArgumentException`. |
| `ErasureTargets.ErasureTarget.Deserialize` | pluginsRewrite/Eraser.DefaultPlugins/ErasureTargets/ErasureTargetBase.cs:57-64 | Resolution errors propagate. A resolved method is bound through the setter's check. The new target holds exactly the resolved method. |
| `ErasureTargets.ErasureTarget.Method` | pluginsRewrite/Eraser.DefaultPlugins/ErasureTargets/ErasureTargetBase.cs:92-94 | The getter returns a method the target kind supports. |
| `ErasureTargets.ErasureTarget.SetMethod` | pluginsRewrite/Eraser.DefaultPlugins/ErasureTargets/ErasureTargetBase.cs:95-101 | An unsupported method raises `ArgumentException` and leaves the binding unchanged. A supported one is stored, so the getter then returns exactly it. The target stays valid either way. |
| `ErasureTargets.ErasureTarget.EffectiveMethod` | pluginsRewrite/Eraser.DefaultPlugins/ErasureTargets/ErasureTargetBase.cs:111-121 | It succeeds if and only if the bound method is not the `Default` sentinel, and then returns the bound method. It never returns the sentinel. Otherwise it raises `InvalidOperationException`. |
| `ErasureTargets.ErasureTarget.GetObjectData` | pluginsRewrite/Eraser.DefaultPlugins/ErasureTargets/ErasureTargetBase.cs:67-70 | The stored data holds exactly one value: the bound method's GUID under `"Method"`, the key deserialisation reads. |
| `ErasureTargets.SerializationRoundTrip` | pluginsRewrite/Eraser.DefaultPlugins/ErasureTargets/ErasureTargetBase.cs:59-70 | Saving a target and resolving the saved data gives back the bound method. This needs two conditions. The `Default` sentinel must carry `Guid.Empty`, and every registered method must be filed under its own non-empty GUID. The bound method must also be the sentinel or a registered method. |

## Left out

- The abstract members of `FileSystem` are not modelled beyond their interface: `Guid`, `Name`, `ResetFileTimes`, `DeleteFile`, `DeleteFolder(info, recursive)`, `EraseClusterTips`, `EraseOldFileSystemResidentFiles`, `EraseDirectoryStructures`, `EraseFileSystemObject`, `GetFileArea` and the progress delegates. The file declares them without bodies. The effect of `DeleteFolder(info, recursive)` on the disk appears only as the uninterpreted `FileSystemDriver.deleteFolder`.
- The abstract members of `ErasureTargetBase` (`Name`, `Guid`, `Configurer`, `Execute`) have no body to model. `SupportsMethod` is a parameter of each target.
- The PRNG itself, `Host.Instance` and the method registrar are not modelled. They are the oracle and the `Registrar` value described above. The `Prng` class is not part of this model: its `Next(maxValue)` is assumed to have an exclusive bound, like `Random.Next`.
- The real filesystem is not modelled: path normalisation, entries that change during the call, and I/O errors other than a missing directory.
- `FileSystem.GenerateRandomFileName`: `length` is a `nat`. A negative length, for which `new byte[length]` throws, is not modelled.
- `FileSystem.GenerateRandomFileName`: the retry loop is cut off when the oracle runs out (`PrngExhausted`). The source would keep drawing.
- `FileSystem.GetRandomFile`: the retry loop is cut off when the oracle runs out (`PrngExhausted`). The source would keep drawing, possibly forever (see Findings).
- `FileSystem.GeneratedNameIsFresh`: the reserved-name guarantee is ordinal, as the code compares. A returned name may be a lower-case or mixed-case device name such as `con`, which the host treats like `CON` (see Findings; `FileSystem.CorrectedNameIsNoDevice` proves the case-insensitive guarantee for the corrected loop).
- `FileSystem.DecodeAscii`: `Encoding.UTF8.GetString` is modelled only on ASCII bytes. The mapped buffer never holds any other byte.
- `FileSystem.IsWhiteSpace`: `Char.IsWhiteSpace` is modelled only on the Latin-1 range. A character cast from a byte never lies outside it.
- `FileSystem.StripExtension`: `Path.GetFileNameWithoutExtension` is reduced to dropping the last `.suffix` of a bare name. Directory parts and invalid-character checks are not modelled, and generated names contain neither.
- The `Default` sentinel is the registrar's `default` value. Its GUID is not given by this source. `ErasureTargets.SerializationRoundTrip` therefore takes `Guid.Empty` as a hypothesis.
- `ErasureTargets.ResolveStoredMethod`: the exception for an unregistered GUID comes from the host's registrar, which is not part of this model. It is modelled as the error `MethodNotRegistered`.
- `ErasureTargets.ErasureTarget.EffectiveMethod`: erasure methods are values, a GUID and a name, so the comparison with the `Default` sentinel is structural equality. The source compares references, so a distinct object equal in GUID and name to the sentinel is not distinguished from it.
- Localisation of messages, `SecurityPermission`, and the serialisation framework beyond the single `"Method"` value are not modelled.
- The non-uniform weighting of `GetRandomFile` across directories of different fan-out is a property of distributions, which the model does not state.

## Findings

| source | as written | input that shows it | evidently intended | confidence | as-written member | corrected member |
|---|---|---|---|---|---|---|
| pluginsRewrite/Eraser.Plugins/ExtensionPoints/FileSystem.cs:116 | The index is drawn with `prng.Next(entries.Length - 1)`. The PRNG's `Next` excludes its bound (the assumption stated above), so with two or more entries the last entry is never chosen. If every other entry leads to no file, the retry loop never ends. | A directory holding files `a` and `b`: `b` is never returned. A directory holding an empty directory and then file `b`: the call never returns. | Draw among all entries with `prng.Next(entries.Length)`. Then every file below the directory can be returned. | high (not executed) | `FileSystem.LastEntryIsNeverSampled`, `FileSystem.EmptyFirstEntryNeverReturns` (`RandomFile` with `LengthMinusOne`) | `FileSystem.YieldsIsSampled` with `Length` (every file in the tree is returned for some draws), `FileSystem.CorrectedRangeReturnsLastEntry` |
| pluginsRewrite/Eraser.Plugins/ExtensionPoints/FileSystem.cs:85-87 | The reserved-name test is `prohibitedFileNames.IndexOf(...)`, an ordinal comparison with 22 upper-case names. A lower-case or mixed-case device name passes it. | In an empty directory, the buffer `[12, 24, 23]` makes the name `con`, which ends the loop, so the path `<directory>\con` is returned. | Compare regardless of letter case, for example by upper-casing the name before the lookup, so that no case variant of a device name is returned. | high (not executed) | `FileSystem.LowerCaseDeviceNameIsAccepted` | `FileSystem.CorrectedNameIsNoDevice` (with `FileSystem.MustRetryIgnoringCase`) |
