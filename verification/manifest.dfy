/** `getFileList` and `createManifest` (index.js lines 31-62): the fixed list
    of files to hash, the manifest object built from it, and the compact JSON
    text `JSON.stringify` makes of that object. */
module Manifest {
  import opened Wrappers
  import Hex
  import JsonText
  import Seqs
  import opened Package

  /** One file to hash: where it is read from and the name it gets in the manifest. */
  datatype FileRef = FileRef(path: string, name: string)

  /** The value stored under each manifest key. */
  datatype Entry = Entry(hashType: string, hashValue: string)

  /** A JavaScript object with string keys, in property order. None of the
      keys used here is an array index, so property order is insertion order. */
  type Object<V> = seq<(string, V)>

  const HashType: string := "sha512"

  function Keys<V>(o: Object<V>): (ks: seq<string>)
    ensures |ks| == |o| && forall i :: 0 <= i < |o| ==> ks[i] == o[i].0
  {
    seq(|o|, i requires 0 <= i < |o| => o[i].0)
  }

  function Names(files: seq<FileRef>): (ns: seq<string>)
    ensures |ns| == |files| && forall i :: 0 <= i < |files| ==> ns[i] == files[i].name
  {
    seq(|files|, i requires 0 <= i < |files| => files[i].name)
  }

  predicate Distinct(ss: seq<string>) {
    forall i, j :: 0 <= i < j < |ss| ==> ss[i] != ss[j]
  }

  /** The manifest reference of one icon: read from `path.join(dir, name)`,
      listed as `icon.iconset/<name>`. */
  function IconRef(join: seq<string> -> string, dir: string, name: string): FileRef {
    FileRef(join([dir, name]), IconsetArchiveDir + name)
  }

  /** `getFileList`: one reference per icon in table order, then the descriptor. */
  function FileList(join: seq<string> -> string, args: Args): (r: seq<FileRef>)
    ensures |r| == |RequiredIconsetFiles| + 1 == 7
    ensures forall k :: 0 <= k < |RequiredIconsetFiles| ==>
      r[k].path == join([args.i, RequiredIconsetFiles[k]]) && r[k].name == "icon.iconset/" + RequiredIconsetFiles[k]
    ensures r[6] == FileRef(args.w, "website.json")
  {
    seq(|RequiredIconsetFiles|, k requires 0 <= k < |RequiredIconsetFiles| =>
      IconRef(join, args.i, RequiredIconsetFiles[k])) + [FileRef(args.w, DescriptorName)]
  }

  /** The seven manifest names are pairwise distinct, whatever the paths. */
  lemma FileListNamesDistinct(join: seq<string> -> string, args: Args)
    ensures Distinct(Names(FileList(join, args)))
  {
    var r := FileList(join, args);
    var ns := Names(r);
    forall i, j | 0 <= i < j < |ns|
      ensures ns[i] != ns[j]
    {
      if j == 6 {
        assert ns[i][0] == 'i' && ns[j][0] == 'w';
      } else {
        var a, b := RequiredIconsetFiles[i], RequiredIconsetFiles[j];
        assert ns[i] == IconsetArchiveDir + a && ns[j] == IconsetArchiveDir + b;
        assert ns[i][|IconsetArchiveDir|..] == a && ns[j][|IconsetArchiveDir|..] == b;
        assert a != b;
      }
    }
  }

  /** Position of key `k` in `o`, or -1 when `o` has no such key. */
  function IndexOf<V>(o: Object<V>, k: string): (r: int)
    ensures -1 <= r < |o|
    ensures r == -1 <==> k !in Keys(o)
    ensures r >= 0 ==> o[r].0 == k && forall j :: 0 <= j < r ==> o[j].0 != k
  {
    if o == [] then -1
    else if o[0].0 == k then 0
    else
      var r := IndexOf(o[1..], k);
      assert Keys(o) == [o[0].0] + Keys(o[1..]);
      if r == -1 then -1 else r + 1
  }

  /** `o[k] = v` on an object: an existing key keeps its place and takes the
      new value, a new key goes last; keys stay unique. */
  function Put<V>(o: Object<V>, k: string, v: V): (r: Object<V>)
    ensures k !in Keys(o) ==> r == o + [(k, v)]
    ensures k in Keys(o) ==> Keys(r) == Keys(o)
    ensures k in Keys(o) ==> forall j :: 0 <= j < |o| ==> r[j] == (if j == IndexOf(o, k) then (k, v) else o[j])
    ensures Distinct(Keys(o)) ==> Distinct(Keys(r))
  {
    var i := IndexOf(o, k);
    if i == -1 then o + [(k, v)] else o[i := (k, v)]
  }

  /** The entry `createManifest` stores for the file at `path`: the tag
      `sha512` and the digest of the file's bytes as 128 lowercase hex digits. */
  function EntryFor(host: Host, path: string): (e: Entry)
    requires path in host.files
    ensures e.hashType == "sha512"
    ensures |e.hashValue| == 128 && forall i :: 0 <= i < |e.hashValue| ==> Hex.IsHexDigit(e.hashValue[i])
  {
    Entry(HashType, Hex.Encode(host.sha512(host.files[path])))
  }

  predicate AllReadable(host: Host, files: seq<FileRef>) {
    forall k :: 0 <= k < |files| ==> files[k].path in host.files
  }

  /** The loop of `createManifest`: reads and hashes each file in order into
      `acc`; the first unreadable path makes `readFileSync` throw, which the
      model returns as that path. */
  function Collect(host: Host, files: seq<FileRef>, acc: Object<Entry>): Result<Object<Entry>, string>
    decreases |files|
  {
    if files == [] then Success(acc)
    else if files[0].path !in host.files then Failure(files[0].path)
    else Collect(host, files[1..], Put(acc, files[0].name, EntryFor(host, files[0].path)))
  }

  function Build(host: Host, files: seq<FileRef>): Result<Object<Entry>, string> {
    Collect(host, files, [])
  }

  /** Reference for the manifest object: one member per file, in list order,
      keyed by the file's manifest name. */
  function Expected(host: Host, files: seq<FileRef>): (o: Object<Entry>)
    requires AllReadable(host, files)
    ensures |o| == |files|
  {
    seq(|files|, k requires 0 <= k < |files| => (files[k].name, EntryFor(host, files[k].path)))
  }

  /** With unique names the loop never overwrites: it appends one member per
      file, in order. */
  lemma {:induction false} CollectUnique(host: Host, files: seq<FileRef>, acc: Object<Entry>)
    requires AllReadable(host, files)
    requires Distinct(Keys(acc) + Names(files))
    ensures Collect(host, files, acc) == Success(acc + Expected(host, files))
  {
    if files == [] {
      assert acc + Expected(host, files) == acc;
    } else {
      var f := files[0];
      var e := EntryFor(host, f.path);
      FreshFirstName(acc, files, e);
      var acc' := Put(acc, f.name, e);
      CollectUnique(host, files[1..], acc');
      ExpectedCons(host, files, acc);
    }
  }

  /** The next name is not yet a key, and appending it keeps the names distinct. */
  lemma FreshFirstName(acc: Object<Entry>, files: seq<FileRef>, e: Entry)
    requires files != []
    requires Distinct(Keys(acc) + Names(files))
    ensures files[0].name !in Keys(acc)
    ensures Keys(acc + [(files[0].name, e)]) + Names(files[1..]) == Keys(acc) + Names(files)
  {
    var all := Keys(acc) + Names(files);
    assert all[|acc|] == files[0].name;
    forall j | 0 <= j < |acc|
      ensures Keys(acc)[j] != files[0].name
    {
      assert all[j] == Keys(acc)[j];
    }
  }

  lemma ExpectedCons(host: Host, files: seq<FileRef>, acc: Object<Entry>)
    requires files != [] && AllReadable(host, files)
    ensures acc + [(files[0].name, EntryFor(host, files[0].path))] + Expected(host, files[1..])
         == acc + Expected(host, files)
  {
  }

  /** The loop fails exactly when some file is unreadable, and then with the
      first unreadable path in list order. */
  lemma {:induction false} CollectFailure(host: Host, files: seq<FileRef>, acc: Object<Entry>)
    ensures Collect(host, files, acc).Failure? <==> !AllReadable(host, files)
    ensures Collect(host, files, acc).Failure? ==>
      exists k :: 0 <= k < |files| && Collect(host, files, acc).error == files[k].path
        && files[k].path !in host.files && forall j :: 0 <= j < k ==> files[j].path in host.files
  {
    if files != [] && files[0].path in host.files {
      var acc' := Put(acc, files[0].name, EntryFor(host, files[0].path));
      CollectFailure(host, files[1..], acc');
      if Collect(host, files, acc).Failure? {
        var k :| 0 <= k < |files[1..]| && Collect(host, files[1..], acc').error == files[1..][k].path
          && files[1..][k].path !in host.files && forall j :: 0 <= j < k ==> files[1..][j].path in host.files;
        assert files[k + 1].path !in host.files;
      } else {
        forall k | 0 <= k < |files|
          ensures files[k].path in host.files
        {
          if k > 0 {
            assert files[k] == files[1..][k - 1];
          }
        }
      }
    }
  }

  /** The manifest depends only on the bytes of the listed files and their
      digests: two hosts that agree there build the same manifest. */
  lemma {:induction false} CollectDeterministic(h1: Host, h2: Host, files: seq<FileRef>, acc: Object<Entry>)
    requires forall k :: 0 <= k < |files| ==> (files[k].path in h1.files <==> files[k].path in h2.files)
    requires forall k :: 0 <= k < |files| && files[k].path in h1.files ==>
      h1.sha512(h1.files[files[k].path]) == h2.sha512(h2.files[files[k].path])
    ensures Collect(h1, files, acc) == Collect(h2, files, acc)
  {
    if files != [] && files[0].path in h1.files {
      assert EntryFor(h1, files[0].path) == EntryFor(h2, files[0].path);
      CollectDeterministic(h1, h2, files[1..], Put(acc, files[0].name, EntryFor(h1, files[0].path)));
    }
  }

  // ---------------------------------------------------------------------
  // JSON.stringify of the manifest object, and a reader for that text

  const EntryOpen: string := "{\"hashType\":"
  const EntrySep: string := ",\"hashValue\":"

  function EntryText(e: Entry): string {
    EntryOpen + JsonText.Quote(e.hashType) + EntrySep + JsonText.Quote(e.hashValue) + "}"
  }

  function MemberText(m: (string, Entry)): string {
    JsonText.Quote(m.0) + ":" + EntryText(m.1)
  }

  function MembersText(o: Object<Entry>): string {
    if o == [] then ""
    else if |o| == 1 then MemberText(o[0])
    else MemberText(o[0]) + "," + MembersText(o[1..])
  }

  /** `JSON.stringify(manifest)`: compact, members in property order. */
  function Stringify(o: Object<Entry>): (t: string)
    ensures |t| >= 2 && t[0] == '{' && t[|t| - 1] == '}'
  {
    "{" + MembersText(o) + "}"
  }

  /** Strips `lit` from the front of `t`. */
  function Expect(lit: string, t: string): (r: Option<string>)
    ensures r.Some? ==> t == lit + r.value
  {
    if |lit| <= |t| && t[..|lit|] == lit then Some(t[|lit|..]) else None
  }

  lemma ExpectPrefix(lit: string, t: string)
    ensures Expect(lit, lit + t) == Some(t)
  {
    assert (lit + t)[..|lit|] == lit;
    assert (lit + t)[|lit|..] == t;
  }

  function ReadEntry(t: string): (r: Option<(Entry, string)>)
    ensures r.Some? ==> |r.value.1| < |t|
  {
    var t1 :- Expect(EntryOpen, t);
    var ht :- JsonText.ReadString(t1);
    var t3 :- Expect(EntrySep, ht.1);
    var hv :- JsonText.ReadString(t3);
    var t5 :- Expect("}", hv.1);
    Some((Entry(ht.0, hv.0), t5))
  }

  function ReadMembers(t: string): (r: Option<(Object<Entry>, string)>)
    ensures r.Some? ==> |r.value.1| < |t|
    decreases |t|
  {
    var k :- JsonText.ReadString(t);
    var t1 :- Expect(":", k.1);
    var e :- ReadEntry(t1);
    if e.1 != [] && e.1[0] == ',' then
      var more :- ReadMembers(e.1[1..]);
      Some(([(k.0, e.0)] + more.0, more.1))
    else
      Some(([(k.0, e.0)], e.1))
  }

  /** Reads back the compact manifest text `Stringify` writes; any other
      text, including whitespace between tokens, is rejected. */
  function ReadManifest(t: string): Option<Object<Entry>> {
    var t1 :- Expect("{", t);
    if t1 == "}" then Some([])
    else
      var ms :- ReadMembers(t1);
      if ms.1 == "}" then Some(ms.0) else None
  }

  lemma ReadEntryText(e: Entry, rest: string)
    ensures ReadEntry(EntryText(e) + rest) == Some((e, rest))
  {
    var qt, qv := JsonText.Quote(e.hashType), JsonText.Quote(e.hashValue);
    var t4 := "}" + rest;
    var t3 := qv + t4;
    var t2 := EntrySep + t3;
    var t1 := qt + t2;
    EntryTextSplit(e, rest);
    ExpectPrefix(EntryOpen, t1);
    assert Expect(EntryOpen, EntryOpen + t1) == Some(t1);
    JsonText.ReadQuote(e.hashType, t2);
    assert JsonText.ReadString(t1) == Some((e.hashType, t2));
    ExpectPrefix(EntrySep, t3);
    assert Expect(EntrySep, t2) == Some(t3);
    JsonText.ReadQuote(e.hashValue, t4);
    assert JsonText.ReadString(t3) == Some((e.hashValue, t4));
    ExpectPrefix("}", rest);
    assert Expect("}", t4) == Some(rest);
    assert ReadEntry(EntryOpen + t1) == Some((e, rest));
  }

  lemma ReadMemberText(m: (string, Entry), rest: string)
    ensures JsonText.ReadString(MemberText(m) + rest) == Some((m.0, ":" + (EntryText(m.1) + rest)))
  {
    var after := ":" + (EntryText(m.1) + rest);
    var q := JsonText.Quote(m.0);
    JsonText.ReadQuote(m.0, after);
    assert JsonText.ReadString(q + after) == Some((m.0, after));
    MemberTextSplit(m, rest);
  }

  lemma EntryTextSplit(e: Entry, rest: string)
    ensures EntryText(e) + rest ==
      EntryOpen + (JsonText.Quote(e.hashType) + (EntrySep + (JsonText.Quote(e.hashValue) + ("}" + rest))))
  {
    Seqs.Assoc5(EntryOpen, JsonText.Quote(e.hashType), EntrySep, JsonText.Quote(e.hashValue), "}", rest);
  }

  lemma MemberTextSplit(m: (string, Entry), rest: string)
    ensures MemberText(m) + rest == JsonText.Quote(m.0) + (":" + (EntryText(m.1) + rest))
  {
    Seqs.Assoc3(JsonText.Quote(m.0), ":", EntryText(m.1), rest);
  }

  lemma MembersTextSplit(o: Object<Entry>, rest: string)
    requires |o| > 1
    ensures MembersText(o) + rest == MemberText(o[0]) + ("," + (MembersText(o[1..]) + rest))
  {
    Seqs.Assoc3(MemberText(o[0]), ",", MembersText(o[1..]), rest);
  }

  /** One member is read off the front, then reading continues after a comma. */
  lemma ReadMemberThen(m: (string, Entry), tail: string)
    ensures ReadMembers(MemberText(m) + tail) ==
      if tail != [] && tail[0] == ',' then
        (match ReadMembers(tail[1..])
         case None => None
         case Some(more) => Some(([m] + more.0, more.1)))
      else Some(([m], tail))
  {
    var t := MemberText(m) + tail;
    var afterKey := EntryText(m.1) + tail;
    ReadMemberText(m, tail);
    assert JsonText.ReadString(t) == Some((m.0, ":" + afterKey));
    ExpectPrefix(":", afterKey);
    assert Expect(":", ":" + afterKey) == Some(afterKey);
    ReadEntryText(m.1, tail);
    assert ReadEntry(afterKey) == Some((m.1, tail));
  }

  /** The last member: reading stops where no comma follows. */
  lemma ReadMemberLast(m: (string, Entry), rest: string)
    requires rest == [] || rest[0] != ','
    ensures ReadMembers(MemberText(m) + rest) == Some(([m], rest))
  {
    ReadMemberThen(m, rest);
  }

  /** A member followed by a comma: the rest is read as further members. */
  lemma ReadMemberMore(m: (string, Entry), u: string, more: Object<Entry>, rest: string)
    requires ReadMembers(u) == Some((more, rest))
    ensures ReadMembers(MemberText(m) + ("," + u)) == Some(([m] + more, rest))
  {
    var tail := "," + u;
    ReadMemberThen(m, tail);
    assert tail[1..] == u;
  }

  lemma {:induction false} ReadMembersText(o: Object<Entry>, rest: string)
    requires o != []
    requires rest == [] || rest[0] != ','
    ensures ReadMembers(MembersText(o) + rest) == Some((o, rest))
  {
    if |o| == 1 {
      ReadMembersOne(o, rest);
    } else {
      ReadMembersText(o[1..], rest);
      MembersTextSplit(o, rest);
      ReadMemberMore(o[0], MembersText(o[1..]) + rest, o[1..], rest);
      assert [o[0]] + o[1..] == o;
    }
  }

  lemma ReadMembersOne(o: Object<Entry>, rest: string)
    requires |o| == 1
    requires rest == [] || rest[0] != ','
    ensures ReadMembers(MembersText(o) + rest) == Some((o, rest))
  {
    assert MembersText(o) == MemberText(o[0]);
    ReadMemberLast(o[0], rest);
    assert [o[0]] == o;
  }

  /** Reading undoes `JSON.stringify` of the manifest: same members, same
      order, for any keys and values whatever characters they contain. */
  lemma ReadStringify(o: Object<Entry>)
    ensures ReadManifest(Stringify(o)) == Some(o)
  {
    var body := MembersText(o) + "}";
    assert Stringify(o) == "{" + body;
    ExpectPrefix("{", body);
    assert Expect("{", "{" + body) == Some(body);
    if o != [] {
      ReadMembersText(o, "}");
      assert JsonText.Quote(o[0].0)[0] == '"';
      assert body[0] == '"';
      assert ReadMembers(body) == Some((o, "}"));
    }
    assert ReadManifest("{" + body) == Some(o);
  }

  // ---------------------------------------------------------------------
  // createManifest

  /** `createManifest(argv)`: the manifest text, or the first path whose
      `readFileSync` threw. */
  function CreateManifest(host: Host, args: Args): (r: Result<string, string>)
    ensures r.Failure? <==> !AllReadable(host, FileList(host.join, args))
    ensures r.Failure? ==> r.error !in host.files
  {
    CollectFailure(host, FileList(host.join, args), []);
    match Build(host, FileList(host.join, args))
    case Success(o) => Success(Stringify(o))
    case Failure(p) => Failure(p)
  }

  /** When all seven files can be read, the manifest text reads back as seven
      members with distinct keys, keyed by the file-list names in file-list
      order, each tagged `sha512` with the hex digest of that file's own bytes. */
  lemma CreateManifestContents(host: Host, args: Args)
    requires AllReadable(host, FileList(host.join, args))
    ensures CreateManifest(host, args).Success?
    ensures var files := FileList(host.join, args);
      var o := ReadManifest(CreateManifest(host, args).value);
      && o.Some? && |o.value| == 7
      && Keys(o.value) == Names(files) && Distinct(Keys(o.value))
      && forall k :: 0 <= k < 7 ==>
           o.value[k].1 == Entry("sha512", Hex.Encode(host.sha512(host.files[files[k].path])))
  {
    var files := FileList(host.join, args);
    BuildExpected(host, args);
    FileListNamesDistinct(host.join, args);
    var o := Expected(host, files);
    ReadStringify(o);
    ExpectedKeys(host, files);
  }

  /** With the seven distinct names, the loop builds the reference object. */
  lemma BuildExpected(host: Host, args: Args)
    requires AllReadable(host, FileList(host.join, args))
    ensures Build(host, FileList(host.join, args)) == Success(Expected(host, FileList(host.join, args)))
  {
    var files := FileList(host.join, args);
    FileListNamesDistinct(host.join, args);
    var empty: Object<Entry> := [];
    assert Keys(empty) + Names(files) == Names(files);
    CollectUnique(host, files, empty);
    assert empty + Expected(host, files) == Expected(host, files);
  }

  lemma ExpectedKeys(host: Host, files: seq<FileRef>)
    requires AllReadable(host, files)
    ensures Keys(Expected(host, files)) == Names(files)
  {
  }

  /** `createManifest` fails exactly when one of the seven files cannot be
      read, and then with the first such path in file-list order: the icons
      in table order, then the descriptor. */
  lemma CreateManifestFailure(host: Host, args: Args)
    ensures var files := FileList(host.join, args);
      && (CreateManifest(host, args).Failure? <==> !AllReadable(host, files))
      && (CreateManifest(host, args).Failure? ==>
           exists k :: 0 <= k < 7 && CreateManifest(host, args).error == files[k].path
             && files[k].path !in host.files && forall j :: 0 <= j < k ==> files[j].path in host.files)
  {
    CollectFailure(host, FileList(host.join, args), []);
  }

  /** The manifest text depends only on the bytes and digests of the seven
      listed files: running twice on unchanged inputs gives identical text,
      whatever else differs between the two hosts. */
  lemma CreateManifestDeterministic(h1: Host, h2: Host, args: Args)
    requires FileList(h1.join, args) == FileList(h2.join, args)
    requires var files := FileList(h1.join, args);
      forall k :: 0 <= k < |files| ==>
        && (files[k].path in h1.files <==> files[k].path in h2.files)
        && (files[k].path in h1.files ==> h1.files[files[k].path] == h2.files[files[k].path])
    requires forall b :: h1.sha512(b) == h2.sha512(b)
    ensures CreateManifest(h1, args) == CreateManifest(h2, args)
  {
    CollectDeterministic(h1, h2, FileList(h1.join, args), []);
  }

  predicate Plain(s: string) {
    forall i :: 0 <= i < |s| ==> !JsonText.NeedsEscape(s[i])
  }

  /** A member whose strings need no escaping is written verbatim. */
  lemma PlainMemberText(name: string, e: Entry)
    requires Plain(name) && Plain(e.hashType) && Plain(e.hashValue)
    ensures MemberText((name, e)) ==
      "\"" + name + "\":{\"hashType\":\"" + e.hashType + "\",\"hashValue\":\"" + e.hashValue + "\"}"
  {
    JsonText.QuotePlain(name);
    JsonText.QuotePlain(e.hashType);
    JsonText.QuotePlain(e.hashValue);
    var q := "\"";
    assert MemberText((name, e)) ==
      (q + name + q) + ":" + (EntryOpen + (q + e.hashType + q) + EntrySep + (q + e.hashValue + q) + "}");
    Regroup(q, name, ":", EntryOpen, e.hashType, EntrySep, e.hashValue, "}");
    LiteralPieces();
  }

  /** The fixed pieces of a member's text, spelled out. */
  lemma LiteralPieces()
    ensures "\":{\"hashType\":\"" == "\"" + ":" + EntryOpen + "\""
    ensures "\",\"hashValue\":\"" == "\"" + EntrySep + "\""
    ensures "\"}" == "\"" + "}"
  {
  }

  lemma Regroup(q: string, a: string, b: string, c: string, d: string, e: string, f: string, g: string)
    ensures (q + a + q) + b + (c + (q + d + q) + e + (q + f + q) + g)
         == q + a + (q + b + c + q) + d + (q + e + q) + f + (q + g)
  {
  }

  /** Every member of the manifest `createManifest` writes is rendered as
      `"<name>":{"hashType":"sha512","hashValue":"<hex>"}`, no escaping needed. */
  lemma ManifestMemberText(host: Host, args: Args, k: int)
    requires AllReadable(host, FileList(host.join, args))
    requires 0 <= k < 7
    ensures var f := FileList(host.join, args)[k];
      MemberText(Expected(host, FileList(host.join, args))[k]) ==
        "\"" + f.name + "\":{\"hashType\":\"" + HashType + "\",\"hashValue\":\"" + EntryFor(host, f.path).hashValue + "\"}"
  {
    var files := FileList(host.join, args);
    var f := files[k];
    var e := EntryFor(host, f.path);
    assert Expected(host, files)[k] == (f.name, e);
    assert Plain(e.hashValue);
    assert Plain(e.hashType);
    NamesPlain(host.join, args);
    PlainMemberText(f.name, e);
  }

  lemma NamesPlain(join: seq<string> -> string, args: Args)
    ensures forall k :: 0 <= k < 7 ==> Plain(FileList(join, args)[k].name)
  {
    var files := FileList(join, args);
    IconNamesPlain();
    forall k | 0 <= k < 6
      ensures Plain(files[k].name)
    {
      PlainConcat(IconsetArchiveDir, RequiredIconsetFiles[k]);
    }
    assert Plain(files[6].name);
  }

  lemma IconNamesPlain()
    ensures Plain(IconsetArchiveDir)
    ensures forall k :: 0 <= k < |RequiredIconsetFiles| ==> Plain(RequiredIconsetFiles[k])
  {
  }

  lemma PlainConcat(a: string, b: string)
    requires Plain(a) && Plain(b)
    ensures Plain(a + b)
  {
  }
}
