/**
  `read_parameter`: look for the value of one field among the lines of the
  block being read.  Lines that do not match the format are passed over, a
  blank line ends the block, and the file position is put back afterwards so
  the fields of a block may come in any order.  Putting the position back is
  modelled by construction: the search takes a cursor and returns none.
 */
module Parameters {
  import opened Wrappers
  import opened ByteOrder
  import opened TextStream
  import opened Scan

  /** The blank line was reached first (an error), or the search ended, with or without a value stored. */
  datatype Parameter = Missing | Found(image: Option<seq<Byte>>)

  /** A line the search passes over: not blank, and the format does not match it. */
  predicate Skipped(text: string, tag: string, conv: Conversion, little: bool, libc: Libc)
  {
    |text| > 0 && Sscanf(text, tag, conv, little, libc) == MatchFailure
  }

  /** What a line the search stops at means. */
  function Verdict(text: string, tag: string, conv: Conversion, little: bool, libc: Libc): Parameter
  {
    if |text| == 0 then Missing
    else match Sscanf(text, tag, conv, little, libc)
      case Converted(image) => Found(Some(image))
      case _ => Found(None)
  }

  function ReadParameter(lines: seq<string>, c: Cursor, tag: string, conv: Conversion, little: bool, libc: Libc): (r: Parameter)
    requires Valid(lines, c)
    decreases |lines| - c.line, ColsLeft(lines, c)
  {
    match ReadLine(lines, c, SIZE_LINE)
    case None => Found(None)
    case Some((text, next)) =>
      if |text| == 0 then Missing
      else match Sscanf(text, tag, conv, little, libc)
        case MatchFailure => ReadParameter(lines, next, tag, conv, little, libc)
        case InputFailure => Found(None)
        case Converted(image) => Found(Some(image))
  }

  /** The lines from `c` to the end of the file, as `fgets` and `chomp` deliver them. */
  function Texts(lines: seq<string>, c: Cursor): seq<string>
    requires Valid(lines, c)
    decreases |lines| - c.line, ColsLeft(lines, c)
  {
    match ReadLine(lines, c, SIZE_LINE)
    case None => []
    case Some((text, next)) => [text] + Texts(lines, next)
  }

  /** One step of the search: a line passed over leads to the next, any other line settles it. */
  lemma ReadParameterStep(lines: seq<string>, c: Cursor, tag: string, conv: Conversion, little: bool, libc: Libc)
    requires Valid(lines, c) && c.line < |lines|
    ensures var (text, next) := ReadLine(lines, c, SIZE_LINE).value;
      Texts(lines, c) == [text] + Texts(lines, next) &&
      ReadParameter(lines, c, tag, conv, little, libc)
        == if Skipped(text, tag, conv, little, libc) then ReadParameter(lines, next, tag, conv, little, libc)
           else Verdict(text, tag, conv, little, libc)
  {
  }

  /** The search settles on the first line that is blank or not passed over. */
  lemma {:induction false} ReadParameterStops(lines: seq<string>, c: Cursor, tag: string, conv: Conversion, little: bool, libc: Libc, k: nat)
    requires Valid(lines, c)
    requires k < |Texts(lines, c)|
    requires forall j :: 0 <= j < k ==> Skipped(Texts(lines, c)[j], tag, conv, little, libc)
    requires !Skipped(Texts(lines, c)[k], tag, conv, little, libc)
    ensures ReadParameter(lines, c, tag, conv, little, libc) == Verdict(Texts(lines, c)[k], tag, conv, little, libc)
    decreases |lines| - c.line, ColsLeft(lines, c)
  {
    ReadParameterStep(lines, c, tag, conv, little, libc);
    var next := ReadLine(lines, c, SIZE_LINE).value.1;
    var ts := Texts(lines, c);
    if k > 0 {
      assert Skipped(ts[0], tag, conv, little, libc);
      forall j | 0 <= j < k - 1
        ensures Skipped(Texts(lines, next)[j], tag, conv, little, libc)
      {
        assert Texts(lines, next)[j] == ts[j + 1];
      }
      assert Texts(lines, next)[k - 1] == ts[k];
      ReadParameterStops(lines, next, tag, conv, little, libc, k - 1);
    }
  }

  /** When every line to the end of the file is passed over, nothing is stored and no error is reported. */
  lemma {:induction false} ReadParameterRunsOut(lines: seq<string>, c: Cursor, tag: string, conv: Conversion, little: bool, libc: Libc)
    requires Valid(lines, c)
    requires forall j :: 0 <= j < |Texts(lines, c)| ==> Skipped(Texts(lines, c)[j], tag, conv, little, libc)
    ensures ReadParameter(lines, c, tag, conv, little, libc) == Found(None)
    decreases |lines| - c.line, ColsLeft(lines, c)
  {
    if c.line < |lines| {
      ReadParameterStep(lines, c, tag, conv, little, libc);
      var next := ReadLine(lines, c, SIZE_LINE).value.1;
      var ts := Texts(lines, c);
      assert Skipped(ts[0], tag, conv, little, libc);
      forall j | 0 <= j < |Texts(lines, next)|
        ensures Skipped(Texts(lines, next)[j], tag, conv, little, libc)
      {
        assert Texts(lines, next)[j] == ts[j + 1];
      }
      ReadParameterRunsOut(lines, next, tag, conv, little, libc);
    }
  }

  /** Plain lines that fit the buffer are delivered as they are. */
  lemma {:induction false} TextsOfShortLines(lines: seq<string>, i: nat)
    requires i <= |lines|
    requires forall j :: i <= j < |lines| ==> Plain(lines[j]) && |lines[j]| <= SIZE_LINE - 2
    ensures Texts(lines, Cursor(i, 0)) == lines[i..]
    decreases |lines| - i
  {
    if i < |lines| {
      ReadWholeLine(lines, i, SIZE_LINE);
      TextsOfShortLines(lines, i + 1);
      assert lines[i..] == [lines[i]] + lines[i + 1..];
    }
  }
}
