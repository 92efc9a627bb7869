/** Serialisation of the character grid: rows joined with '\n', as
    `screen.map(row => row.join('')).join('\n')` does, and the inverse split. */
module Text {

  /** `rows.join('\n')`: an empty list gives the empty string. */
  function JoinLines(rows: seq<string>): string
    decreases |rows|
  {
    if |rows| == 0 then ""
    else if |rows| == 1 then rows[0]
    else rows[0] + "\n" + JoinLines(rows[1..])
  }

  /** `s.split('\n')`: always at least one (possibly empty) line. */
  function SplitLines(s: string): (r: seq<string>)
    ensures |r| >= 1
    decreases |s|
  {
    if |s| == 0 then [""]
    else if s[0] == '\n' then [""] + SplitLines(s[1..])
    else
      var rest := SplitLines(s[1..]);
      [[s[0]] + rest[0]] + rest[1..]
  }

  /** A row of `n` blanks. */
  function Spaces(n: nat): (r: string)
    ensures |r| == n && forall i :: 0 <= i < n ==> r[i] == ' '
  {
    seq(n, _ => ' ')
  }

  predicate NoNewline(s: string) {
    forall i :: 0 <= i < |s| ==> s[i] != '\n'
  }

  /** A line without '\n' followed by a '\n' splits off as the first line. */
  lemma {:induction false} SplitAfterLine(line: string, rest: string)
    requires NoNewline(line)
    ensures SplitLines(line + "\n" + rest) == [line] + SplitLines(rest)
    decreases |line|
  {
    if |line| == 0 {
      assert line + "\n" + rest == "\n" + rest;
      assert ("\n" + rest)[1..] == rest;
    } else {
      var s := line + "\n" + rest;
      assert s[0] == line[0];
      assert s[1..] == line[1..] + "\n" + rest;
      SplitAfterLine(line[1..], rest);
      assert [line[0]] + line[1..] == line;
    }
  }

  /** A line without '\n' splits into itself. */
  lemma {:induction false} SplitSingle(line: string)
    requires NoNewline(line)
    ensures SplitLines(line) == [line]
    decreases |line|
  {
    if |line| > 0 {
      SplitSingle(line[1..]);
      assert [line[0]] + line[1..] == line;
    }
  }

  /** Splitting undoes joining whenever there is at least one row and no row holds '\n'. */
  lemma {:induction false} SplitJoin(rows: seq<string>)
    requires |rows| >= 1
    requires forall i :: 0 <= i < |rows| ==> NoNewline(rows[i])
    ensures SplitLines(JoinLines(rows)) == rows
    decreases |rows|
  {
    if |rows| == 1 {
      SplitSingle(rows[0]);
    } else {
      SplitJoin(rows[1..]);
      SplitAfterLine(rows[0], JoinLines(rows[1..]));
      assert [rows[0]] + rows[1..] == rows;
    }
  }

  /** The joined text has the rows' characters plus one separator between neighbours. */
  lemma {:induction false} JoinLength(rows: seq<string>, w: nat)
    requires forall i :: 0 <= i < |rows| ==> |rows[i]| == w
    ensures |rows| >= 1 ==> |JoinLines(rows)| == |rows| * (w + 1) - 1
    ensures |rows| == 0 ==> JoinLines(rows) == ""
    decreases |rows|
  {
    if |rows| > 1 {
      JoinLength(rows[1..], w);
    }
  }

  /** `h` lines of `w` blanks joined: the text of a cleared grid. */
  function BlankText(w: nat, h: nat): string {
    JoinLines(seq(h, _ => Spaces(w)))
  }

  /** The cleared text splits back into `h` blank lines and is `h * (w + 1) - 1`
      characters long. */
  lemma BlankTextShape(w: nat, h: nat)
    requires h >= 1
    ensures SplitLines(BlankText(w, h)) == seq(h, _ => Spaces(w))
    ensures |BlankText(w, h)| == h * (w + 1) - 1
  {
    var rows := seq(h, _ => Spaces(w));
    forall i | 0 <= i < h ensures NoNewline(rows[i]) {
    }
    SplitJoin(rows);
    JoinLength(rows, w);
  }
}
