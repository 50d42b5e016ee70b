/**
 * The command line of the chapter-to-PDF script (scripts/mangaread-to-pdf.js):
 * which arguments select the help text, which name the chapter URL and the
 * output, and how the output path is normalised to a `.pdf` file name.
 */
module MangareadCli {
  import opened Types
  import opened Strings
  import MangareadCore

  /** What the script does with its arguments: print the usage, or fetch a chapter. */
  datatype Invocation = Help | Run(inputUrl: string, output: Option<string>)

  /** `args.indexOf(a)`: the first position of `a`, or -1. */
  function FirstIndex(args: seq<string>, a: string): (r: int)
    ensures -1 <= r < |args|
    ensures r == -1 <==> a !in args
    ensures r >= 0 ==> args[r] == a && a !in args[..r]
  {
    if |args| == 0 then -1
    else if args[0] == a then 0
    else
      var k := FirstIndex(args[1..], a);
      assert k >= 0 ==> args[..k + 1] == [args[0]] + args[1..][..k];
      if k == -1 then -1 else k + 1
  }

  /**
   * The argument selection. No arguments, or `--help` or `-h` anywhere, selects
   * the help text. Otherwise the chapter URL is the first argument and the
   * output is the argument after the first `--out`: none when there is no
   * `--out` or nothing follows it.
   */
  function SelectInvocation(args: seq<string>): (r: Invocation)
    ensures r == Help <==> |args| == 0 || "--help" in args || "-h" in args
    ensures r.Run? ==> r.inputUrl == args[0]
    ensures r.Run? && "--out" !in args ==> r.output.None?
    ensures r.Run? && "--out" in args && FirstIndex(args, "--out") < |args| - 1 ==>
              r.output == Some(args[FirstIndex(args, "--out") + 1])
    ensures r.Run? && r.output.Some? ==> exists i :: (0 <= i < |args| - 1 && args[i] == "--out"
                                                      && "--out" !in args[..i] && r.output.value == args[i + 1])
    ensures r.Run? && "--out" in args && args[|args| - 1] == "--out" && "--out" !in args[..|args| - 1] ==> r.output.None?
  {
    if |args| == 0 || "--help" in args || "-h" in args then Help
    else
      var outputFlagIndex := FirstIndex(args, "--out");
      var outputArg := if outputFlagIndex >= 0 && outputFlagIndex + 1 < |args| then Some(args[outputFlagIndex + 1]) else None;
      Run(args[0], outputArg)
  }

  /** `p.toLowerCase().endsWith('.pdf')` */
  predicate HasPdfSuffix(p: string)
  {
    EndsWith(Lower(p), ".pdf")
  }

  /**
   * normalizeOutputPath, for the pathname the chapter URL parses to (None when
   * it does not parse). A non-empty output that already ends in `.pdf`, in any
   * case, is kept; any other non-empty output gets `.pdf` appended; a missing or
   * empty output falls back to the name derived from the URL.
   */
  function NormalizeOutputPath(urlPathname: Option<string>, output: Option<string>): (r: string)
    ensures output.Some? && output.value != "" && HasPdfSuffix(output.value) ==> r == output.value
    ensures output.Some? && output.value != "" && !HasPdfSuffix(output.value) ==> r == output.value + ".pdf"
    ensures output.None? || output.value == "" ==> r == MangareadCore.DeriveOutputName(urlPathname)
  {
    if output.Some? && output.value != "" then
      if HasPdfSuffix(output.value) then output.value else output.value + ".pdf"
    else MangareadCore.DeriveOutputName(urlPathname)
  }

  /** Appending `.pdf` gives a path that ends in `.pdf` when lower-cased. */
  lemma {:induction false} AppendedSuffix(p: string)
    ensures HasPdfSuffix(p + ".pdf")
  {
    var q := p + ".pdf";
    var l := Lower(q);
    forall i | |l| - 4 <= i < |l| ensures l[i] == ".pdf"[i - (|l| - 4)] {
      assert l[i] == LowerChar(q[i]);
    }
  }

  /** The normalised output path always ends in `.pdf`, ignoring case. */
  lemma {:induction false} NormalizedIsPdf(urlPathname: Option<string>, output: Option<string>)
    ensures HasPdfSuffix(NormalizeOutputPath(urlPathname, output))
  {
    if output.Some? && output.value != "" {
      if !HasPdfSuffix(output.value) {
        AppendedSuffix(output.value);
      }
    } else {
      var name := MangareadCore.DeriveOutputName(urlPathname);
      assert name == name[..|name| - 4] + ".pdf";
      AppendedSuffix(name[..|name| - 4]);
    }
  }

  /** Normalising an already normalised output path changes nothing. */
  lemma {:induction false} NormalizeIdempotent(urlPathname: Option<string>, output: Option<string>)
    ensures var r := NormalizeOutputPath(urlPathname, output);
      NormalizeOutputPath(urlPathname, Some(r)) == r
  {
    var r := NormalizeOutputPath(urlPathname, output);
    NormalizedIsPdf(urlPathname, output);
    assert |Lower(r)| >= 4;
  }
}
