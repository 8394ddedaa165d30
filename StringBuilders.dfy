/** `System.Text.StringBuilder`, as the writer uses it: text appended at the end. */
module StringBuilders {

  /** `Environment.NewLine`, taken to be a line feed. */
  const NewLine: string := "\n"

  /** Appending in two steps is appending the concatenation. */
  lemma AppendAssoc(a: string, b: string, c: string)
    ensures a + b + c == a + (b + c)
  {
  }

  /** A line appended after `b` is one append of `b` and the line. */
  lemma AppendLineAssoc(a: string, b: string, s: string)
    ensures a + b + s + NewLine == a + (b + s + NewLine)
  {
  }

  /** The empty string is neutral on both sides. */
  lemma EmptyAppend(s: string)
    ensures "" + s == s && s + "" == s
  {
  }

  class StringBuilder {
    var Text: string

    constructor ()
      ensures Text == ""
    {
      Text := "";
    }

    /** `Append(s)`; appending a null string appends nothing, so callers pass "". */
    method Append(s: string)
      modifies this
      ensures Text == old(Text) + s
    {
      Text := Text + s;
    }

    /** `AppendLine(s)`. */
    method AppendLine(s: string)
      modifies this
      ensures Text == old(Text) + s + NewLine
    {
      Text := Text + s + NewLine;
    }

    /** `AppendLine()`, with no argument: a line break alone. */
    method AppendEmptyLine()
      modifies this
      ensures Text == old(Text) + NewLine
    {
      Text := Text + NewLine;
    }
  }
}
