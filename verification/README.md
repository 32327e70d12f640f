# push_package core, modelled in Dafny

`push_package` builds the signed archive a website needs for Safari push
notifications. The archive holds:

- six icons;
- the `website.json` descriptor;
- a `manifest.json` listing the SHA-512 digest of each of those seven files;
- a signature over the manifest.

This project models the part of `index.js` that decides what the tool
checks, what it hashes and how a run ends:

- the two fixed tables (required descriptor fields, required icon files);
- `getFileList`, the seven files to hash, icons first in table order;
- `createManifest`: the manifest object built member by member with JavaScript
  property-assignment semantics, the hex encoding of each digest, and the
  compact text `JSON.stringify` writes;
- the validation gate at the start of `processZip`. This is the field loop with
  the full JavaScript meaning of `websiteJson[field]?.length > 0`, the
  `catch` that prints "Invalid website.json file", and the icon existence
  checks;
- the outcome rule at the end of `processZip`. The manifest step is always
  attempted, outside any `try`; if it throws on an unreadable file the run
  ends by an unhandled rejection. Once it succeeds, the exit status depends
  only on signing and packaging. The `ok` flag the gate computes is never read.

The descriptor checks are stated for any field table whose names are not
array indices and are not inherited from the Object, String, Array, Number or
Boolean prototypes (such as `constructor` or `toFixed`), since the model reads
only an object's own members; the program's table,
`Package.RequiredWebsiteParams`, is one, and `Validation.Validate` passes it.

Modules, one per part of the program:

- `Package`: tables, command-line paths and the host as a value.
- `Hex`: `digest('hex')`.
- `JsonText`: string quoting of `JSON.stringify`, and a reader for it.
- `JsValue`: parsed descriptor values and the `?.length > 0` test.
- `Manifest`: `getFileList` and `createManifest`.
- `Validation`: lines 81-103.
- `Pipeline`: lines 105-114.
- `Wrappers` and `Seqs`: `Option`/`Result` and a sequence filter.

The host is a record of values (`Package.Host`):

- the file system is a map from path to bytes;
- `path.join`, `__dirname`, SHA-512, `JSON.parse` of the descriptor, and
  JavaScript's string/number conversions are parameters;
- signing and packaging enter only as their success or failure (`Pipeline.Steps`).

Paths are opaque keys. The icon checks look at `path.join(__dirname, argv.i, name)`
(line 98), while the manifest reads `path.join(argv.i, name)` (line 34). The
model keeps these as two separate `join` calls that it never identifies; their
results may coincide, as they do in Node when `__dirname` is `/` and `-i` is
absolute.

Several reasonable expectations about the tool are not what the code does;
the model follows the code:

- **Field types.** One would expect each required field to have to be a
  non-empty string. The code only checks `length > 0`, so a non-empty array
  (`JsValue.ArrayFieldTest`) or an object whose own `length` member is a
  positive number (`JsValue.ObjectLengthFieldTest`) passes.
- **Unparsable descriptor.** One would expect every field to be reported
  missing as well. The code prints only "Invalid website.json file", with no
  field lines (`Validation.UnparsableDescriptor`).
- **Throwing field test.** A field test that throws after earlier fields failed
  prints those field lines first, then "Invalid website.json file"
  (`Validation.DescriptorThrows`).
- **Unreadable file.** One would expect a caught I/O error and
  `process.exit(1)`. In the code, `createManifest` runs outside the `try`, so
  its exception is an unhandled rejection: nothing is printed by the program
  and the process status is 1 under Node 15 and later (`Pipeline.Exit.Crashed`,
  `Pipeline.ExitStatus`).
- **Password.** One would expect an empty password when `-p` is absent. The
  code passes `undefined`. The command strings are not modelled.

## Model

| member | source | states |
|---|---|---|
| Manifest.FileList | index.js:31-43 | seven references: icon k is read from `join([argv.i, name_k])` and listed as `icon.iconset/name_k`, in table order; the seventh is `argv.w` listed as `website.json` |
| Manifest.FileListNamesDistinct | index.js:31-43 | the seven manifest names are pairwise distinct for any paths, so no assignment at line 52 overwrites another |
| Manifest.IndexOf | index.js:52 | the position of a key in an object is its first occurrence, and -1 exactly when the key is absent |
| Manifest.Put | index.js:52 | `o[k] = v`: a new key is appended last; an existing key keeps its place and only its value changes; unique keys stay unique |
| Manifest.EntryFor | index.js:50-55 | each entry is tagged `sha512` and its value is 128 lowercase hex digits |
| Hex.Encode | index.js:51 | `digest('hex')` writes two hex digits per byte |
| Hex.DecodeEncode | index.js:51 | hex decoding recovers the digest bytes from their hex text |
| Hex.EncodeDecode | index.js:51 | any hex text that decodes is exactly the encoding of what it decodes to |
| Hex.EncodeInjective | index.js:51 | different digests give different hex texts |
| Manifest.Collect | index.js:49-56 | the loop of `createManifest`; its contract is stated by `Manifest.CollectUnique`, `Manifest.CollectFailure` and `Manifest.CollectDeterministic` below |
| Manifest.CollectUnique | index.js:49-56 | with distinct names and readable files, the loop appends one member per file in list order, never overwriting |
| Manifest.CollectFailure | index.js:49-56 | the loop fails exactly when some file is unreadable, and then with the first unreadable path in list order |
| Manifest.CollectDeterministic | index.js:49-56 | the loop's result depends only on which listed files exist and on their digests |
| Manifest.BuildExpected | index.js:47-56 | with all seven files readable, the object built from an empty `{}` equals the reference object, one member per file in list order |
| JsonText.Escape | index.js:57 | a character is escaped (text starting with a backslash) exactly when it is a control character, a quote or a backslash; otherwise it is copied verbatim |
| JsonText.QuotePlain | index.js:57 | a string with nothing to escape is written between quotes unchanged |
| JsonText.ReadEscape | index.js:57 | each escaped character reads back as itself and consumes exactly its escape |
| JsonText.ReadBodyEscapeAll | index.js:57 | an escaped string body followed by the closing quote reads back as the original string, leaving the rest |
| JsonText.ReadQuote | index.js:57 | a quoted string reads back as the original string for every string, leaving the rest of the text |
| Manifest.Stringify | index.js:57 | the manifest text is a JSON object: it starts with `{` and ends with `}` |
| Manifest.ReadStringify | index.js:57 | the compact text reads back as the same members in the same order, whatever characters the keys and values hold |
| Manifest.ReadMembersText | index.js:57 | a comma-separated member list reads back as exactly those members when followed by anything but a comma |
| Manifest.CreateManifest | index.js:45-62 | `createManifest` fails exactly when one of the seven listed files is unreadable, and then on a path that is not in the file system; its contents are stated by `Manifest.CreateManifestContents` |
| Manifest.CreateManifestContents | index.js:45-61 | when all seven files are readable, the manifest text reads back as seven members with distinct keys equal to the file-list names in order, each `{hashType: "sha512", hashValue: hex(sha512(bytes of that file))}` |
| Manifest.CreateManifestFailure | index.js:45-56 | `createManifest` throws exactly when one of the seven files is unreadable, naming the first such path (icons in table order, then the descriptor) |
| Manifest.CreateManifestDeterministic | index.js:45-57 | two hosts that agree on the seven files' bytes and on SHA-512 write the same manifest text |
| Manifest.ManifestMemberText | index.js:52-57 | every member is written verbatim as `"<name>":{"hashType":"sha512","hashValue":"<hex>"}`; no character needs escaping |
| Manifest.PlainMemberText | index.js:57 | a member whose key and strings need no escaping is written as the literal compact JSON text |
| JsValue.Member | index.js:85 | an object from `JSON.parse` yields the value of the last occurrence of a key, and nothing when the key is absent |
| JsValue.Utf16Length | index.js:87 | a string's `length` counts UTF-16 code units: at least one and at most two per character |
| JsValue.FieldOf | index.js:87 | reading a field throws exactly when the descriptor is `null`; on an object it is the member under that name |
| JsValue.LengthOf | index.js:87 | `length` is the UTF-16 length of a string and the element count of an array, and undefined for numbers and booleans |
| JsValue.JoinTexts | index.js:87 | joining array elements throws exactly when converting some element throws |
| JsValue.GreaterThanZero | index.js:87 | `x > 0` is false for undefined and `null`, is the sign test for numbers, and throws only when the value is an array or an object |
| JsValue.FieldTest | index.js:87 | `doc[field]?.length > 0`; its contract is stated by the field-test lemmas below, from `JsValue.StringFieldTest` to `JsValue.FieldTestThrows` |
| JsValue.ElementText | index.js:87 | converting an array element for `join` throws only for an array or an object, and a string converts to itself |
| JsValue.StringFieldTest | index.js:87 | a string-valued field passes exactly when the string is non-empty |
| JsValue.ArrayFieldTest | index.js:87 | an array-valued field passes exactly when the array is non-empty, whatever its elements |
| JsValue.ObjectFieldTest | index.js:87 | a field holding an object is tested as `length > 0` on that object's own `length` member, and fails without throwing when there is none |
| JsValue.ObjectLengthFieldTest | index.js:87 | a field holding an object passes exactly when the object's own `length` member is a positive number |
| JsValue.ScalarFieldTest | index.js:87 | absent, `null`, numeric and boolean fields fail without throwing |
| JsValue.NonObjectFieldTest | index.js:85-87 | a descriptor that is not an object has none of the fields; `null` makes the test throw |
| JsValue.FieldTestThrows | index.js:87 | the test throws only for a `null` descriptor or for a field holding an object whose own `length` member is an array or an object |
| Validation.Message | index.js:88-100 | the exact printed lines: "Field <f> of website.json is required", "Invalid website.json file", "Icon file in path <p> not found" |
| Validation.Record | index.js:81-103 | logging problems appends them in order, and `ok` stays true exactly when nothing was logged |
| Validation.FirstThrow | index.js:86-94 | the first field whose test throws: all earlier tests returned normally |
| Validation.ScanFields | index.js:86-91 | the field loop enters the `catch` exactly when some field's test throws, and prints at most one line per field; `Validation.ScanFieldsSpec` states exactly which |
| Validation.ScanFieldsSpec | index.js:86-94 | the field loop prints, in table order, exactly the fields before the first throwing test that fail the test, and it enters the `catch` exactly when some test throws |
| Validation.ScanFieldsNoThrow | index.js:86-91 | when no test throws, the loop prints exactly the failing fields and does not enter the `catch` |
| Validation.ScanFieldsClean | index.js:86-91 | the loop prints nothing and does not throw exactly when every field passes |
| Validation.MissingFieldsMembership | index.js:86-91 | a field is reported exactly when it is in the table and fails the test |
| Validation.UnparsableDescriptor | index.js:84-95 | an unreadable or unparsable descriptor gives the single line "Invalid website.json file" and no field line |
| Validation.NullDescriptor | index.js:85-94 | with a non-empty field table, a descriptor that parses to `null` gives only "Invalid website.json file": the first field read throws |
| Validation.DescriptorProblems | index.js:83-95 | the descriptor's printed lines; stated by `Validation.UnparsableDescriptor`, `Validation.NullDescriptor`, `Validation.DescriptorFieldProblems`, `Validation.DescriptorThrows` and `Validation.DescriptorClean` |
| Validation.DescriptorFieldProblems | index.js:83-95 | when no field test throws, the descriptor lines are one per failing field, in table order, never the invalid-descriptor line; a field is listed exactly when it fails |
| Validation.DescriptorThrows | index.js:83-95 | when a field test throws, the failing fields before it are printed in order and then "Invalid website.json file" |
| Validation.DescriptorClean | index.js:83-95 | the descriptor prints nothing exactly when it parses and every field of the table passes without throwing |
| Validation.IconProblems | index.js:97-103 | at most one line per icon, each naming a checked path that does not exist; `Validation.IconProblemsSpec` states exactly which |
| Validation.IconProblemsSpec | index.js:97-103 | the icon loop prints exactly the checked paths `join([__dirname, argv.i, name])` that do not exist, in table order |
| Validation.IconsClean | index.js:97-103 | the icon loop prints nothing exactly when every checked path exists |
| Validation.Validate | index.js:81-103 | `ok` ends true exactly when no line was printed; `Validation.ValidateOk` states when that is |
| Validation.ValidateOk | index.js:81-103 | `ok` ends true exactly when no line was printed, and exactly when the descriptor prints nothing and every icon exists under the module directory |
| Pipeline.ExitStatus | index.js:105-114 | `process.exit(c)` ends with status `c`; an escaped exception ends with status 1 |
| Pipeline.RunStatus | index.js:105-114 | the run's status is 0 or 1, and 0 exactly when all seven files can be read and signing and packaging both succeed |
| Pipeline.Finish | index.js:105-114 | lines 105-114, taking no gate as input; its contract is stated by `Pipeline.StepOrder`, `Pipeline.ExitRule` and `Pipeline.OutcomeIgnoresValidation` |
| Pipeline.ProcessZip | index.js:80-115 | one run: the gate of lines 81-103 and the outcome of `Pipeline.Finish`; stated by `Pipeline.UnparsableDescriptorStillExitsZero` |
| Pipeline.StepOrder | index.js:105-108 | the manifest step always runs first; signing runs exactly when the manifest was built; packaging runs exactly when signing also succeeded |
| Pipeline.ExitRule | index.js:105-114 | after the manifest is built, the run exits 1 exactly when signing or packaging fails and 0 otherwise; it ends otherwise exactly when `createManifest` threw, on an unreadable listed path |
| Pipeline.OutcomeIgnoresValidation | index.js:81-114 | the outcome of lines 105-114 takes no gate; two hosts that differ only in what the gate alone reads (descriptor parse, conversions, module directory) get the same manifest, steps and exit, however different their gates |
| Pipeline.UnparsableDescriptorStillExitsZero | index.js:81-114 | an unparsable descriptor clears `ok`, yet the manifest is built and the run exits 0 when signing and packaging succeed |

## Left out

- Signing (`execCommand`, `createSignature`, lines 16-29 and 64-68): three `openssl` runs. Only whether they succeed is modelled (`Pipeline.Steps.signs`). The command strings, the password handling and the PEM files are not modelled.
- Packaging (`createZipPackage`, lines 70-78): the AdmZip archive. Only whether it succeeds is modelled (`Pipeline.Steps.packages`). Line 74 adds `website.json` from the working directory rather than `argv.w`; this is outside the model.
- Writing `manifest.json` (lines 58-60): a file write whose result nothing in the core reads. A write failure would throw like a read failure; the model does not represent it.
- Command-line parsing and the password prompt (lines 6-11 and 117-158): yargs and readline. `Package.Args` holds the two paths the core reads. The `-o` option is parsed but never used by the code.
- `path.join` and `__dirname`: normalisation is not modelled. Paths are opaque keys given by a parameter, so the model states what is joined, not what the join yields.
- SHA-512: a parameter constrained only to 64-byte output.
- `JSON.parse` and UTF-8 decoding of the descriptor: a parameter returning a parsed value, or nothing when parsing throws. Duplicate keys are kept in order and the last one wins. Dafny strings cannot hold the lone surrogates that `\ud800`-style escapes produce, so such descriptor strings are not represented; only their non-emptiness and the unmodelled StringToNumber reach line 87.
- StringToNumber and Number::toString: parameters (`JsValue.Conversions`). Floating-point values are represented as reals plus infinities and NaN, which is enough for the `> 0` test.
- Console output: the model records the problems printed by the gate (`Validation.Message` gives their exact text), not the `console.log(ex)` of line 110.
- Pipeline.ExitStatus: the status 1 for an unhandled rejection assumes Node 15 or later. Older Node versions only print a warning; the readline interface opened on standard input at lines 8-11 is never closed and keeps the process alive, so it exits 0 only once standard input closes, which on a terminal may be never.
- `fs.existsSync` (line 99) is modelled by the same map as `fs.readFileSync` (`Package.Host.files`): a path exists exactly when it can be read. `existsSync` is also true of a directory or an unreadable file at a checked icon path, where the model would report the icon missing; such hosts are not modelled.
