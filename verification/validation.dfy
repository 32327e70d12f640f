/** The advisory checks at the start of `processZip` (index.js lines
    81-103): every required descriptor field must have a positive `length`,
    the descriptor must parse, and every icon must exist under the module
    directory. Each failed check prints one line and clears `ok`; nothing
    here stops the run. */
module Validation {
  import opened Wrappers
  import opened Package
  import JsValue
  import Seqs

  datatype Problem =
    | MissingField(field: string)
    | InvalidDescriptor
    | MissingIcon(path: string)

  /** The line printed for a problem. */
  function Message(p: Problem): string {
    match p
    case MissingField(f) => "Field " + f + " of website.json is required"
    case InvalidDescriptor => "Invalid website.json file"
    case MissingIcon(path) => "Icon file in path " + path + " not found"
  }

  /** The printed problems so far and the `ok` flag. */
  datatype Gate = Gate(problems: seq<Problem>, ok: bool)

  /** A per-field test: passes, fails, or throws. */
  type Test = string -> Result<bool, JsValue.Thrown>

  /** `doc[field]?.length > 0` for the parsed descriptor `doc`. */
  function FieldTestOf(conv: JsValue.Conversions, doc: JsValue.Value): Test {
    f => JsValue.FieldTest(conv, doc, f)
  }

  /** Printing a problem and setting `ok = false`. */
  function Log(g: Gate, p: Problem): Gate {
    Gate(g.problems + [p], false)
  }

  /** Logs each problem in turn. */
  function Record(g: Gate, ps: seq<Problem>): (r: Gate)
    decreases |ps|
    ensures r.problems == g.problems + ps
    ensures r.ok <==> g.ok && ps == []
  {
    if ps == [] then g
    else
      var r := Record(Log(g, ps[0]), ps[1..]);
      assert g.problems + [ps[0]] + ps[1..] == g.problems + ps;
      r
  }

  datatype FieldScan = FieldScan(problems: seq<Problem>, threw: bool)

  /** The field loop of lines 86-91 with `doc[field]?.length > 0` given as
      `test`: the problems it prints and whether a test threw, which ends the
      loop and enters the `catch`. */
  function ScanFields(test: Test, fields: seq<string>): (r: FieldScan)
    ensures r.threw <==> exists i :: 0 <= i < |fields| && test(fields[i]).Failure?
    ensures |r.problems| <= |fields|
  {
    if fields == [] then FieldScan([], false)
    else
      match test(fields[0])
      case Failure(_) => FieldScan([], true)
      case Success(true) => ScanFields(test, fields[1..])
      case Success(false) =>
        var rest := ScanFields(test, fields[1..]);
        FieldScan([MissingField(fields[0])] + rest.problems, rest.threw)
  }

  /** What `JSON.parse(fs.readFileSync(argv.w).toString())` yields; `None`
      when the read or the parse throws. */
  function ParsedDescriptor(host: Host, args: Args): Option<JsValue.Value> {
    if args.w in host.files then host.parseDescriptor(host.files[args.w]) else None
  }

  /** Lines 83-95: the problems printed for the descriptor, checked against
      the field table `fields` (the program passes `RequiredWebsiteParams`). */
  function DescriptorProblems(host: Host, args: Args, fields: seq<string>): seq<Problem> {
    match ParsedDescriptor(host, args)
    case None => [InvalidDescriptor]
    case Some(doc) =>
      var scan := ScanFields(FieldTestOf(host.conv, doc), fields);
      if scan.threw then scan.problems + [InvalidDescriptor] else scan.problems
  }

  /** Where line 98 looks for an icon: `path.join(__dirname, argv.i, name)`. */
  function IconCheckPath(host: Host, args: Args, name: string): string {
    host.join([host.moduleDir, args.i, name])
  }

  /** Lines 97-103: the problems printed for the icons. */
  function IconProblems(host: Host, args: Args, names: seq<string>): (ps: seq<Problem>)
    ensures |ps| <= |names|
    ensures forall i :: 0 <= i < |ps| ==> ps[i].MissingIcon? && ps[i].path !in host.files
  {
    if names == [] then []
    else
      var path := IconCheckPath(host, args, names[0]);
      (if path in host.files then [] else [MissingIcon(path)]) + IconProblems(host, args, names[1..])
  }

  /** Lines 81-103 as a whole: the gate starts with `ok = true`, logs the
      descriptor problems and then the icon problems. */
  function Validate(host: Host, args: Args): (g: Gate)
    ensures g.ok <==> g.problems == []
  {
    Record(Gate([], true),
      DescriptorProblems(host, args, RequiredWebsiteParams) + IconProblems(host, args, RequiredIconsetFiles))
  }

  // ---------------------------------------------------------------------
  // Reference definitions

  /** The predicate "this field is reported missing". */
  function Fails(test: Test): string -> bool {
    f => test(f) == Success(false)
  }

  /** Index of the first field whose test throws, or `|fields|`. */
  function FirstThrow(test: Test, fields: seq<string>): (k: nat)
    ensures k <= |fields|
    ensures forall i :: 0 <= i < k ==> test(fields[i]).Success?
    ensures k < |fields| ==> test(fields[k]).Failure?
  {
    if fields == [] then 0
    else if test(fields[0]).Failure? then 0
    else 1 + FirstThrow(test, fields[1..])
  }

  function MissingFields(fs: seq<string>): (ps: seq<Problem>)
    ensures |ps| == |fs|
  {
    seq(|fs|, i requires 0 <= i < |fs| => MissingField(fs[i]))
  }

  function MissingIcons(paths: seq<string>): (ps: seq<Problem>)
    ensures |ps| == |paths|
  {
    seq(|paths|, i requires 0 <= i < |paths| => MissingIcon(paths[i]))
  }

  function IconCheckPaths(host: Host, args: Args, names: seq<string>): (ps: seq<string>)
    ensures |ps| == |names|
  {
    seq(|names|, i requires 0 <= i < |names| => IconCheckPath(host, args, names[i]))
  }

  // ---------------------------------------------------------------------
  // Properties

  /** The field loop reports, in table order, exactly the fields before the
      first throwing test that fail it, and throws exactly when some test does. */
  lemma {:induction false} ScanFieldsSpec(test: Test, fields: seq<string>)
    ensures var stop := FirstThrow(test, fields);
      && ScanFields(test, fields).problems == MissingFields(Seqs.Filter(fields[..stop], Fails(test)))
      && (ScanFields(test, fields).threw <==> stop < |fields|)
  {
    if fields == [] || test(fields[0]).Failure? {
      assert fields[..0] == [];
    } else {
      ScanFieldsSpec(test, fields[1..]);
      ScanReferenceStep(test, fields);
    }
  }

  /** The reference scan of `fields` in terms of the scan of its tail, when
      the first test does not throw. */
  lemma ScanReferenceStep(test: Test, fields: seq<string>)
    requires fields != [] && test(fields[0]).Success?
    ensures var stop, stop' := FirstThrow(test, fields), FirstThrow(test, fields[1..]);
      var tail := MissingFields(Seqs.Filter(fields[1..][..stop'], Fails(test)));
      && stop == stop' + 1
      && MissingFields(Seqs.Filter(fields[..stop], Fails(test))) ==
           (if test(fields[0]) == Success(false) then [MissingField(fields[0])] + tail else tail)
  {
    var stop := FirstThrow(test, fields);
    var tail := Seqs.Filter(fields[1..][..stop - 1], Fails(test));
    FilterPrefix(test, fields, stop);
    if test(fields[0]) == Success(false) {
      MissingFieldsCons(fields[0], tail);
    }
  }

  /** Filtering a non-empty prefix decides its first field and moves on. */
  lemma FilterPrefix(test: Test, fields: seq<string>, stop: nat)
    requires 0 < stop <= |fields|
    ensures Seqs.Filter(fields[..stop], Fails(test)) ==
      (if test(fields[0]) == Success(false) then [fields[0]] else []) + Seqs.Filter(fields[1..][..stop - 1], Fails(test))
  {
    assert fields[..stop][1..] == fields[1..][..stop - 1];
    assert fields[..stop][0] == fields[0];
  }

  lemma MissingFieldsCons(f: string, fs: seq<string>)
    ensures MissingFields([f] + fs) == [MissingField(f)] + MissingFields(fs)
  {
  }

  /** A descriptor that cannot be read or parsed yields the single problem
      "Invalid website.json file". */
  lemma UnparsableDescriptor(host: Host, args: Args, fields: seq<string>)
    requires ParsedDescriptor(host, args).None?
    ensures DescriptorProblems(host, args, fields) == [InvalidDescriptor]
    ensures Message(DescriptorProblems(host, args, fields)[0]) == "Invalid website.json file"
  {
  }

  /** A descriptor that parses to `null` also yields only "Invalid
      website.json file": reading the first field of `null` throws, so no
      field line is printed. */
  lemma NullDescriptor(host: Host, args: Args, fields: seq<string>)
    requires ParsedDescriptor(host, args) == Some(JsValue.Null)
    requires fields != []
    ensures DescriptorProblems(host, args, fields) == [InvalidDescriptor]
  {
    var test := FieldTestOf(host.conv, JsValue.Null);
    assert test(fields[0]).Failure?;
  }

  /** A field is reported by the reference list exactly when it is in the
      table and fails its test. */
  lemma MissingFieldsMembership(test: Test, fields: seq<string>)
    ensures forall f :: MissingField(f) in MissingFields(Seqs.Filter(fields, Fails(test))) <==>
      f in fields && test(f) == Success(false)
    ensures InvalidDescriptor !in MissingFields(Seqs.Filter(fields, Fails(test)))
  {
    var failing := Seqs.Filter(fields, Fails(test));
    var ps := MissingFields(failing);
    forall f
      ensures MissingField(f) in ps <==> f in fields && test(f) == Success(false)
    {
      if MissingField(f) in ps {
        var i :| 0 <= i < |ps| && ps[i] == MissingField(f);
        assert failing[i] == f;
      }
      if f in fields && test(f) == Success(false) {
        var k :| 0 <= k < |fields| && fields[k] == f;
        assert Fails(test)(fields[k]);
        var i :| 0 <= i < |failing| && failing[i] == f;
        assert ps[i] == MissingField(f);
      }
    }
  }

  /** When no field test throws, the descriptor problems are one
      `MissingField` per failing field, in table order, and nothing else. */
  lemma DescriptorFieldProblems(host: Host, args: Args, doc: JsValue.Value, fields: seq<string>)
    requires ParsedDescriptor(host, args) == Some(doc)
    requires forall i :: 0 <= i < |fields| ==> JsValue.FieldTest(host.conv, doc, fields[i]).Success?
    ensures DescriptorProblems(host, args, fields) ==
      MissingFields(Seqs.Filter(fields, Fails(FieldTestOf(host.conv, doc))))
    ensures forall f :: MissingField(f) in DescriptorProblems(host, args, fields) <==>
      f in fields && JsValue.FieldTest(host.conv, doc, f) == Success(false)
    ensures InvalidDescriptor !in DescriptorProblems(host, args, fields)
  {
    var test := FieldTestOf(host.conv, doc);
    assert forall i :: 0 <= i < |fields| ==> test(fields[i]).Success?;
    ScanFieldsNoThrow(test, fields);
    MissingFieldsMembership(test, fields);
  }

  /** A scan in which no test throws reports exactly the failing fields. */
  lemma ScanFieldsNoThrow(test: Test, fields: seq<string>)
    requires forall i :: 0 <= i < |fields| ==> test(fields[i]).Success?
    ensures ScanFields(test, fields) == FieldScan(MissingFields(Seqs.Filter(fields, Fails(test))), false)
  {
    ScanFieldsSpec(test, fields);
    var stop := FirstThrow(test, fields);
    assert stop == |fields|;
    assert fields[..stop] == fields;
  }

  /** When a field test throws, the fields before it that fail are reported
      in table order and then "Invalid website.json file". */
  lemma DescriptorThrows(host: Host, args: Args, doc: JsValue.Value, fields: seq<string>)
    requires ParsedDescriptor(host, args) == Some(doc)
    requires FirstThrow(FieldTestOf(host.conv, doc), fields) < |fields|
    ensures var test := FieldTestOf(host.conv, doc);
      var stop := FirstThrow(test, fields);
      DescriptorProblems(host, args, fields) ==
        MissingFields(Seqs.Filter(fields[..stop], Fails(test))) + [InvalidDescriptor]
  {
    ScanFieldsSpec(FieldTestOf(host.conv, doc), fields);
  }

  /** The icon loop reports exactly the checked paths that do not exist, in
      table order. */
  lemma {:induction false} IconProblemsSpec(host: Host, args: Args, names: seq<string>)
    ensures IconProblems(host, args, names) ==
      MissingIcons(Seqs.Filter(IconCheckPaths(host, args, names), p => p !in host.files))
  {
    if names != [] {
      IconProblemsSpec(host, args, names[1..]);
      assert IconCheckPaths(host, args, names)[1..] == IconCheckPaths(host, args, names[1..]);
    }
  }

  /** The icon loop prints nothing exactly when every checked path exists. */
  lemma {:induction false} IconsClean(host: Host, args: Args, names: seq<string>)
    ensures IconProblems(host, args, names) == [] <==>
      forall i :: 0 <= i < |names| ==> IconCheckPath(host, args, names[i]) in host.files
  {
    if names != [] {
      IconsClean(host, args, names[1..]);
      assert forall i :: 1 <= i < |names| ==> names[i] == names[1..][i - 1];
    }
  }

  /** `ok` ends false exactly when some problem was printed, and no problem
      is printed exactly when the descriptor has every field and every icon
      is found. */
  lemma ValidateOk(host: Host, args: Args)
    ensures Validate(host, args).ok <==> Validate(host, args).problems == []
    ensures Validate(host, args).ok <==>
      && DescriptorProblems(host, args, RequiredWebsiteParams) == []
      && forall i :: 0 <= i < |RequiredIconsetFiles| ==>
           IconCheckPath(host, args, RequiredIconsetFiles[i]) in host.files
  {
    IconsClean(host, args, RequiredIconsetFiles);
  }

  /** The field loop prints nothing and does not throw exactly when every
      test passes. */
  lemma {:induction false} ScanFieldsClean(test: Test, fields: seq<string>)
    ensures ScanFields(test, fields) == FieldScan([], false) <==>
      forall i :: 0 <= i < |fields| ==> test(fields[i]) == Success(true)
  {
    if fields != [] {
      ScanFieldsClean(test, fields[1..]);
      assert forall i :: 1 <= i < |fields| ==> fields[i] == fields[1..][i - 1];
    }
  }

  /** The descriptor passes exactly when it parses to a value on which every
      required field's test succeeds without throwing. */
  lemma DescriptorClean(host: Host, args: Args, fields: seq<string>)
    ensures DescriptorProblems(host, args, fields) == [] <==>
      && ParsedDescriptor(host, args).Some?
      && forall i :: 0 <= i < |fields| ==>
           JsValue.FieldTest(host.conv, ParsedDescriptor(host, args).value, fields[i]) == Success(true)
  {
    if ParsedDescriptor(host, args).Some? {
      var doc := ParsedDescriptor(host, args).value;
      var test := FieldTestOf(host.conv, doc);
      ScanFieldsClean(test, fields);
      var scan := ScanFields(test, fields);
      assert DescriptorProblems(host, args, fields) ==
        if scan.threw then scan.problems + [InvalidDescriptor] else scan.problems;
    }
  }
}
