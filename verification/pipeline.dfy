/** The rest of `processZip` (index.js lines 105-114): the manifest step is
    attempted whatever the validation gate found, outside any `try`; once it
    succeeds, the signature and the archive are made inside one `try`, and
    only those two steps decide the exit status. */
module Pipeline {
  import opened Wrappers
  import opened Package
  import Manifest
  import Validation

  /** Outcomes of the two external steps: `createSignature` (three `openssl`
      runs, rejecting on the first failure) and `createZipPackage`. */
  datatype Steps = Steps(signs: bool, packages: bool)

  datatype Step = BuildManifest | Sign | Pack

  /** How the run ends: `process.exit(code)`, or the exception thrown by
      `createManifest` escaping `processZip` (it is outside the `try`). */
  datatype Exit = Exited(code: int) | Crashed(path: string)

  /** What lines 105-114 did: the steps attempted in order, the manifest
      step's result and how the run ended. */
  datatype Outcome = Outcome(attempted: seq<Step>, manifest: Result<string, string>, exit: Exit)

  /** One run: the validation gate of lines 81-103, then the outcome. */
  datatype Run = Run(gate: Validation.Gate, outcome: Outcome)

  /** Lines 105-114. The gate is not an argument: nothing here reads `ok`. */
  function Finish(host: Host, args: Args, steps: Steps): Outcome {
    var manifest := Manifest.CreateManifest(host, args);
    match manifest
    case Failure(p) => Outcome([BuildManifest], manifest, Crashed(p))
    case Success(_) =>
      if !steps.signs then Outcome([BuildManifest, Sign], manifest, Exited(1))
      else if !steps.packages then Outcome([BuildManifest, Sign, Pack], manifest, Exited(1))
      else Outcome([BuildManifest, Sign, Pack], manifest, Exited(0))
  }

  /** `processZip(argv, password)`. */
  function ProcessZip(host: Host, args: Args, steps: Steps): Run {
    Run(Validation.Validate(host, args), Finish(host, args, steps))
  }

  /** The process exit status. A rejection nobody handles ends a Node 15+
      process with status 1. */
  function ExitStatus(e: Exit): (code: int)
    ensures e.Exited? ==> code == e.code
    ensures e.Crashed? ==> code == 1
  {
    match e
    case Exited(c) => c
    case Crashed(_) => 1
  }

  /** The run's process status is 0 or 1, and 0 exactly when all seven files
      can be read and signing and packaging both succeed. */
  lemma RunStatus(host: Host, args: Args, steps: Steps)
    ensures var code := ExitStatus(Finish(host, args, steps).exit);
      && (code == 0 || code == 1)
      && (code == 0 <==> Manifest.AllReadable(host, Manifest.FileList(host.join, args)) && steps.signs && steps.packages)
  {
  }

  /** The manifest step always runs first; signing runs exactly when the
      manifest was built, packaging exactly when signing also succeeded. */
  lemma StepOrder(host: Host, args: Args, steps: Steps)
    ensures var r := Finish(host, args, steps);
      && |r.attempted| >= 1 && r.attempted[0] == BuildManifest
      && (Sign in r.attempted <==> r.manifest.Success?)
      && (Pack in r.attempted <==> r.manifest.Success? && steps.signs)
  {
  }

  /** Once the manifest is built, the run exits 1 exactly when signing or
      packaging fails and 0 otherwise; it ends any other way only when
      the manifest step threw, and then on the path it could not read. */
  lemma ExitRule(host: Host, args: Args, steps: Steps)
    ensures var r := Finish(host, args, steps);
      && (r.manifest.Success? ==> r.exit.Exited? && (r.exit.code == 1 <==> !steps.signs || !steps.packages)
                                  && (r.exit.code == 0 <==> steps.signs && steps.packages))
      && (r.exit.Crashed? <==> r.manifest.Failure?)
      && (r.exit.Crashed? ==> exists k :: 0 <= k < 7 && r.exit.path == Manifest.FileList(host.join, args)[k].path
                                          && r.exit.path !in host.files)
  {
    Manifest.CreateManifestFailure(host, args);
  }

  /** Validation is advisory: two hosts that differ only in what the gate
      alone looks at (the descriptor parse, the JavaScript conversions and
      the module directory) build the same manifest, attempt the same steps
      and end the same way, however different their gates are. */
  lemma OutcomeIgnoresValidation(h1: Host, h2: Host, args: Args, steps: Steps)
    requires h1.files == h2.files
    requires forall ps :: h1.join(ps) == h2.join(ps)
    requires forall b :: h1.sha512(b) == h2.sha512(b)
    ensures Finish(h1, args, steps) == Finish(h2, args, steps)
  {
    assert Manifest.FileList(h1.join, args) == Manifest.FileList(h2.join, args);
    Manifest.CreateManifestDeterministic(h1, h2, args);
  }

  /** A run whose descriptor does not even parse still builds the manifest
      and exits 0 once signing and packaging succeed: `ok` is false and
      nothing reads it. */
  lemma UnparsableDescriptorStillExitsZero(host: Host, args: Args)
    requires Validation.ParsedDescriptor(host, args).None?
    requires Manifest.AllReadable(host, Manifest.FileList(host.join, args))
    ensures var r := ProcessZip(host, args, Steps(true, true));
      !r.gate.ok && r.outcome.manifest.Success? && r.outcome.exit == Exited(0)
  {
    Manifest.CreateManifestContents(host, args);
    Validation.UnparsableDescriptor(host, args, RequiredWebsiteParams);
    var gate := Validation.Validate(host, args);
    assert gate.problems[0] == Validation.InvalidDescriptor;
  }
}
