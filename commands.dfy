/** Reading one input line as a command. */
module Commands {

  datatype CommandType = Nop | Move | Undo | Quit

  /** A parsed line: `ok` is false for a line that is not a command; `from`
      and `to` are only filled in for a move and are empty otherwise. */
  datatype ParseResult = ParseResult(ok: bool, kind: CommandType, from: string, to: string)

  datatype Option<T> = None | Some(value: T)

  /** The position of the first `c` in `s`, if any. */
  function Find(s: string, c: char): (r: Option<nat>)
    ensures r.None? <==> c !in s
    ensures r.Some? ==> r.value < |s| && s[r.value] == c && c !in s[..r.value]
  {
    if s == [] then None
    else if s[0] == c then Some(0)
    else match Find(s[1..], c)
      case None => None
      case Some(i) =>
        assert s[1..][..i] == s[1..i + 1];
        Some(i + 1)
  }

  /** A line that starts with the directive prefix '/'. */
  predicate IsDirective(line: string)
  {
    |line| > 0 && line[0] == '/'
  }

  /** "/quit" and "/undo" are directives of their own, any other line
      starting with '/' is an accepted directive that does nothing, any other
      line holding a comma is a move split at the first comma, and anything
      else is not a command. */
  function Parse(input: string): (r: ParseResult)
    ensures r.ok <==> IsDirective(input) || ',' in input
    ensures r.kind == Quit <==> input == "/quit"
    ensures r.kind == Undo <==> input == "/undo"
    ensures r.kind == Move <==> !IsDirective(input) && ',' in input
    ensures r.kind == Move ==> input == r.from + [','] + r.to && ',' !in r.from
    ensures r.kind != Move ==> r.from == [] && r.to == []
  {
    if IsDirective(input) then
      var command := input[1..];
      assert input == ['/'] + command;
      if command == "quit" then ParseResult(true, Quit, [], [])
      else if command == "undo" then ParseResult(true, Undo, [], [])
      else ParseResult(true, Nop, [], [])
    else
      match Find(input, ',')
      case Some(pos) =>
        assert input == input[..pos] + [','] + input[pos + 1..];
        ParseResult(true, Move, input[..pos], input[pos + 1..])
      case None => ParseResult(false, Nop, [], [])
  }

  /** Joining two peg names with a comma gives back a move between exactly
      those names, as long as the first name holds no comma and does not
      start with '/'; later commas stay part of the second name. */
  lemma ParseMoveLine(f: string, t: string)
    requires ',' !in f && !IsDirective(f)
    ensures Parse(f + [','] + t) == ParseResult(true, Move, f, t)
  {
    var line := f + [','] + t;
    assert line[|f|] == ',';
    assert !IsDirective(line) by {
      if |f| == 0 { assert line[0] == ','; } else { assert line[0] == f[0]; }
    }
    assert Find(line, ',') == Some(|f|) by {
      assert line[..|f|] == f;
    }
    assert line[..|f|] == f;
    assert line[|f| + 1..] == t;
  }
}
