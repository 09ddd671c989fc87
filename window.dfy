/** The history a tail session prints before it follows a file: the last n
    lines already in the file. */
module Window {

  /** Opening and scanning a file: the lines the scanner produced, and whether
      it stopped on a read error; or the file could not be opened. */
  datatype FileRead = Opened(lines: seq<string>, scanFailed: bool) | OpenFailed

  /** The last n lines of a file, in file order (none when n is not positive). */
  function LastN(lines: seq<string>, n: int): (w: seq<string>)
    ensures n <= 0 ==> w == []
    ensures 0 <= n <= |lines| ==> |w| == n
    ensures n >= |lines| ==> w == lines
    ensures w == lines[|lines| - |w|..]
  {
    if n <= 0 then []
    else if |lines| <= n then lines
    else lines[|lines| - n..]
  }

  /** How many lines the window keeps once i lines have been scanned. */
  function Kept(i: int, n: int): (k: int)
  {
    if n <= 0 then 0 else if i <= n then i else n
  }

  /** One loop step: appending line i to the window over the first i lines,
      and dropping the head when more than n are kept, gives the window over
      the first i + 1 lines. */
  lemma SlideStep(s: seq<string>, i: int, n: int, w: seq<string>)
    requires 0 <= i < |s|
    requires |w| == Kept(i, n) && w == s[i - |w|..i]
    ensures var v := w + [s[i]];
      var v' := if |v| > n then v[1..] else v;
      |v'| == Kept(i + 1, n) && v' == s[i + 1 - |v'|..i + 1]
  {
    assert w + [s[i]] == s[i - |w|..i + 1];
  }

  /** The window over all the lines is LastN. */
  lemma WindowIsLastN(lines: seq<string>, n: int, w: seq<string>)
    requires |w| == Kept(|lines|, n) && w == lines[|lines| - |w|..]
    ensures w == LastN(lines, n)
  {
  }

  /** Prints the last n lines of a file: a window of at most n lines slides over
      the scanned lines and is then printed in order. A file that cannot be
      opened prints nothing; a scanner error is fatal after the window is printed. */
  method PrintLastNLines(file: FileRead, n: int) returns (emitted: seq<string>, fatal: bool)
    ensures fatal <==> file.OpenFailed? || file.scanFailed
    ensures file.OpenFailed? ==> emitted == []
    ensures file.Opened? ==> emitted == LastN(file.lines, n)
    ensures |emitted| <= if n < 0 then 0 else n
  {
    if file.OpenFailed? {
      return [], true;
    }
    var scanned := file.lines;
    var lines: seq<string> := [];
    var i := 0;
    while i < |scanned|
      invariant 0 <= i <= |scanned|
      invariant |lines| == Kept(i, n)
      invariant lines == scanned[i - |lines|..i]
    {
      var x := scanned[i];
      SlideStep(scanned, i, n, lines);
      lines := lines + [x];
      if |lines| > n {
        lines := lines[1..];
      }
      i := i + 1;
    }
    WindowIsLastN(scanned, n, lines);
    emitted := [];
    for k := 0 to |lines|
      invariant emitted == lines[..k]
    {
      emitted := emitted + [lines[k]];
    }
    assert lines[..|lines|] == lines;
    fatal := file.scanFailed;
  }
}
