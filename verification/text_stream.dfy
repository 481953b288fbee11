/**
  The text side of the converter reads its input with `fgets` into a fixed
  buffer and trims the result with `chomp`.  A text file is modelled as its
  lines (without their newline characters) and a read position in them; a
  line longer than the buffer arrives in several pieces, exactly as `fgets`
  delivers it.
 */
module TextStream {
  import opened Wrappers

  /** `SIZE_LINE`: the buffer of the driver loop, of `read_parameter` and of the sample reader. */
  const SIZE_LINE: nat := 256

  /** A read position: a line index and a column within that line. */
  datatype Cursor = Cursor(line: nat, col: nat)

  /** A position inside a line, or the end of the file. */
  predicate Valid(lines: seq<string>, c: Cursor)
  {
    (c.line < |lines| && c.col <= |lines[c.line]|) || (c.line == |lines| && c.col == 0)
  }

  /** Columns still unread on the current line (the inner termination measure). */
  function ColsLeft(lines: seq<string>, c: Cursor): nat
    requires Valid(lines, c)
  {
    if c.line < |lines| then |lines[c.line]| - c.col else 0
  }

  /** `b` is strictly further into the file than `a`. */
  predicate Advances(lines: seq<string>, a: Cursor, b: Cursor)
    requires Valid(lines, a) && Valid(lines, b)
  {
    b.line > a.line || (b.line == a.line && ColsLeft(lines, b) < ColsLeft(lines, a))
  }

  /** `b` is `a` or further into the file. */
  predicate NotBefore(lines: seq<string>, a: Cursor, b: Cursor)
    requires Valid(lines, a) && Valid(lines, b)
  {
    b == a || Advances(lines, a, b)
  }

  /**
    `fgets(buffer, n, file)`: nothing at the end of the file; otherwise the
    rest of the current line with its newline when that fits in `n - 1`
    characters, else the next `n - 1` characters of the line.
   */
  function Fgets(lines: seq<string>, c: Cursor, n: nat): (r: Option<(string, Cursor)>)
    requires Valid(lines, c) && n >= 2
    ensures r.None? <==> c.line == |lines|
    ensures r.Some? ==> Valid(lines, r.value.1) && Advances(lines, c, r.value.1)
    ensures r.Some? ==> 0 < |r.value.0| <= n - 1
  {
    if c.line == |lines| then None
    else
      var rest := lines[c.line][c.col..];
      if |rest| + 1 <= n - 1 then Some((rest + "\n", Cursor(c.line + 1, 0)))
      else Some((rest[..n - 1], Cursor(c.line, c.col + n - 1)))
  }

  /** The length of the C string in a buffer: the characters before the first NUL or newline. */
  function CLength(s: string): (r: nat)
    ensures r <= |s|
    ensures forall i :: 0 <= i < r ==> s[i] != '\0' && s[i] != '\n'
    ensures r < |s| ==> s[r] == '\0' || s[r] == '\n'
  {
    if |s| == 0 || s[0] == '\0' || s[0] == '\n' then 0 else 1 + CLength(s[1..])
  }

  /** `chomp`: the buffer as the C string the rest of the program sees, newline removed. */
  function Chomp(s: string): (r: string)
  {
    s[..CLength(s)]
  }

  /** `fgets` followed by `chomp`: one line of text as the program sees it, and the position after it. */
  function ReadLine(lines: seq<string>, c: Cursor, n: nat): (r: Option<(string, Cursor)>)
    requires Valid(lines, c) && n >= 2
    ensures r.None? <==> c.line == |lines|
    ensures r.Some? ==> Valid(lines, r.value.1) && Advances(lines, c, r.value.1)
  {
    match Fgets(lines, c, n)
    case None => None
    case Some((chunk, next)) => Some((Chomp(chunk), next))
  }

  /** No character of `s` ends a C string or a line. */
  predicate Plain(s: string)
  {
    forall i :: 0 <= i < |s| ==> s[i] != '\0' && s[i] != '\n'
  }

  /** A plain string followed by a terminator reads as the string itself. */
  lemma ChompPlain(s: string, t: string)
    requires Plain(s) && |t| > 0 && (t[0] == '\0' || t[0] == '\n')
    ensures Chomp(s + t) == s
  {
    assert forall i :: 0 <= i < |s| ==> (s + t)[i] == s[i];
    assert (s + t)[|s|] == t[0];
    assert (s + t)[..|s|] == s;
  }

  /** A plain string with nothing after it reads as itself. */
  lemma ChompWhole(s: string)
    requires Plain(s)
    ensures Chomp(s) == s
  {
  }

  /** A plain line that fits the buffer with its newline is read whole, and the next read starts on the next line. */
  lemma ReadWholeLine(lines: seq<string>, i: nat, n: nat)
    requires i < |lines| && n >= 2 && Plain(lines[i]) && |lines[i]| <= n - 2
    ensures ReadLine(lines, Cursor(i, 0), n) == Some((lines[i], Cursor(i + 1, 0)))
  {
    assert lines[i][0..] == lines[i];
    ChompPlain(lines[i], "\n");
  }

  /**
    A plain line of exactly `n - 1` characters fills the buffer without its
    newline: it is read as itself and the newline left over reads as an empty
    line.
   */
  lemma PhantomEmptyLine(lines: seq<string>, i: nat, n: nat)
    requires i < |lines| && n >= 2 && Plain(lines[i]) && |lines[i]| == n - 1
    ensures ReadLine(lines, Cursor(i, 0), n) == Some((lines[i], Cursor(i, n - 1)))
    ensures ReadLine(lines, Cursor(i, n - 1), n) == Some(("", Cursor(i + 1, 0)))
  {
    assert lines[i][0..] == lines[i];
    assert lines[i][0..][..n - 1] == lines[i];
    ChompWhole(lines[i]);
    assert lines[i][n - 1..] == "";
    assert "" + "\n" == "\n";
  }
}
