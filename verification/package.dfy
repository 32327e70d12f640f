/** What one run of the packager works with: the two fixed tables of
    index.js lines 13-14, the command-line paths the core reads, and the
    host facilities it calls, each given as a value so the model stays pure. */
module Package {
  import opened Wrappers
  import Hex
  import JsValue

  /** Descriptor members that must be present with a positive `length`. */
  const RequiredWebsiteParams: seq<string> :=
    ["websiteName", "websitePushID", "allowedDomains", "urlFormatString", "authenticationToken", "webServiceURL"]

  /** Icon files that make up the icon set, in manifest order. */
  const RequiredIconsetFiles: seq<string> :=
    ["icon_16x16.png", "icon_16x16@2x.png", "icon_32x32.png", "icon_32x32@2x.png", "icon_128x128.png", "icon_128x128@2x.png"]

  /** The archive-relative folder the icons are listed under in the manifest. */
  const IconsetArchiveDir: string := "icon.iconset/"

  /** The archive-relative name of the descriptor. */
  const DescriptorName: string := "website.json"

  /** A SHA-512 digest: 64 bytes. */
  type Digest = d: seq<Hex.byte> | |d| == 64 witness seq(64, _ => 0)

  /** The options the core reads: `-w` (descriptor path) and `-i` (icon directory). */
  datatype Args = Args(w: string, i: string)

  /** The host as the core sees it:
      - `files`: the file system, path to contents, as `fs.readFileSync` and
        `fs.existsSync` see it; paths are opaque keys, so a path relative to
        the working directory and one under the module directory are simply
        different keys;
      - `join`: `path.join`, not modelled;
      - `moduleDir`: `__dirname`;
      - `sha512`: `crypto.createHash('sha512')`, not modelled beyond its 64-byte output;
      - `parseDescriptor`: `JSON.parse` of the descriptor bytes decoded as UTF-8,
        `None` when it throws;
      - `conv`: JavaScript's string/number conversions. */
  datatype Host = Host(
    files: map<string, seq<Hex.byte>>,
    join: seq<string> -> string,
    moduleDir: string,
    sha512: seq<Hex.byte> -> Digest,
    parseDescriptor: seq<Hex.byte> -> Option<JsValue.Value>,
    conv: JsValue.Conversions)
}
