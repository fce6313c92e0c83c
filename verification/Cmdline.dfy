/** Reading a process's command line (utils.c, read_proc_cmdline): the arguments arrive with
    a NUL after each and are joined by spaces in a bounded buffer. */
module Cmdline {
  import opened CStrings

  /** The input without leading NULs. */
  function Trimmed(input: string): string
  {
    if input != "" && input[0] == NUL then Trimmed(input[1..]) else input
  }

  /** Every NUL becomes a space. */
  function Spaced(s: string): (r: string)
    ensures |r| == |s| && NUL !in r
    ensures forall i | 0 <= i < |s| :: r[i] == if s[i] == NUL then ' ' else s[i]
  {
    if s == "" then "" else [if s[0] == NUL then ' ' else s[0]] + Spaced(s[1..])
  }

  function Take(s: string, max: nat): string { if |s| <= max then s else s[..max] }

  function WithoutLastSpace(s: string): string
  {
    if s != "" && s[|s| - 1] == ' ' then s[..|s| - 1] else s
  }

  /** What the buffer holds in the end. */
  function CommandLine(input: string, size: nat): string
    requires size > 0
  {
    WithoutLastSpace(Take(Spaced(Trimmed(input)), size - 1))
  }

  /** What the loop still adds when `pos` characters are in the buffer already. */
  function Rest(input: string, pos: nat, size: nat): string
    requires pos < size
  {
    Take(Spaced(if pos == 0 then Trimmed(input) else input), size - 1 - pos)
  }

  lemma RestStep(done: string, input: string, size: nat)
    requires |done| < size - 1 && input != ""
    ensures if input[0] == NUL && done == ""
            then Rest(input, 0, size) == Rest(input[1..], 0, size)
            else done + Rest(input, |done|, size) ==
                 (done + [if input[0] == NUL then ' ' else input[0]]) + Rest(input[1..], |done| + 1, size)
  {
    if !(input[0] == NUL && done == "") {
      var c := if input[0] == NUL then ' ' else input[0];
      assert Trimmed(input) == input || |done| > 0;
      assert Rest(input, |done|, size) == [c] + Rest(input[1..], |done| + 1, size);
      Reassociate(done, [c], Rest(input[1..], |done| + 1, size));
    }
  }

  method ReadProcCmdline(file: Option<string>, buf: array<char>)
    requires buf.Length > 0
    modifies buf
    ensures Held(buf) == if file.None? then "" else CommandLine(file.value, buf.Length)
    ensures file.Some? ==>
              var r, stream := Held(buf), Spaced(Trimmed(file.value));
              && r <= stream && |r| < buf.Length && NUL !in r
              && ((r == Take(stream, buf.Length - 1) && (r == "" || r[|r| - 1] != ' ')) ||
                  r + " " == Take(stream, buf.Length - 1))
  {
    hide Rest, CommandLine, Held, Spaced, Trimmed, Take, WithoutLastSpace;
    if file.None? {
      buf[0] := NUL;
      HeldIs(buf, "");
      return;
    }
    var input, size := file.value, buf.Length;
    var next, pos := 0, 0;
    ghost var done := "";
    while next < |input| && pos < size - 1
      invariant 0 <= next <= |input| && 0 <= pos <= size - 1
      invariant done == buf[..pos] && NUL !in done
      invariant done + Rest(input[next..], pos, size) == Rest(input, 0, size)
    {
      var c := input[next];
      ghost var rest := input[next..];
      assert rest[0] == c && rest[1..] == input[next + 1..];
      RestStep(done, rest, size);
      next := next + 1;
      if c == NUL {
        if pos > 0 && pos < size - 1 {
          buf[pos] := ' ';
          pos := pos + 1;
          assert buf[..pos] == done + [' '];
          done := done + [' '];
        }
      } else {
        buf[pos] := c;
        pos := pos + 1;
        assert buf[..pos] == done + [c];
        done := done + [c];
      }
    }
    buf[pos] := NUL;
    RestEnds(done, input[next..], size);
    WholeCommandLine(input, done, size);
    TrimEnd(buf, pos, done);
    CutStream(input, size);
  }

  method TrimEnd(buf: array<char>, pos: nat, ghost done: string)
    requires pos < buf.Length && buf[..pos] == done && NUL !in done && buf[pos] == NUL
    modifies buf
    ensures Held(buf) == WithoutLastSpace(done)
  {
    hide Held;
    if pos > 0 && buf[pos - 1] == ' ' {
      buf[pos - 1] := NUL;
      assert buf[..pos - 1] == done[..pos - 1];
      HeldIs(buf, done[..pos - 1]);
    } else {
      HeldIs(buf, done);
    }
  }

  lemma RestEnds(done: string, input: string, size: nat)
    requires |done| < size && (input == "" || |done| == size - 1)
    ensures done + Rest(input, |done|, size) == done
  {
  }

  lemma WholeCommandLine(input: string, done: string, size: nat)
    requires size > 0 && done == Rest(input, 0, size)
    ensures CommandLine(input, size) == WithoutLastSpace(done)
  {
  }

  /** The stream is cut to the buffer, and at most one space is taken off its end. */
  lemma {:induction false} CutStream(input: string, size: nat)
    requires size > 0
    ensures var r, stream := CommandLine(input, size), Spaced(Trimmed(input));
            && r <= stream && |r| < size && NUL !in r
            && ((r == Take(stream, size - 1) && (r == "" || r[|r| - 1] != ' ')) || r + " " == Take(stream, size - 1))
  {
    var t := Take(Spaced(Trimmed(input)), size - 1);
    hide Spaced, Trimmed;
    if t != "" && t[|t| - 1] == ' ' {
      assert t[..|t| - 1] + " " == t;
    }
  }

  // --- what comes out ----------------------------------------------------------------------------

  /** The kernel's form: a NUL after each argument. */
  function Packed(args: seq<string>): string
  {
    if args == [] then "" else args[0] + ([NUL] + Packed(args[1..]))
  }

  /** The arguments separated by single spaces. */
  function Joined(args: seq<string>): string
    requires args != []
  {
    if |args| == 1 then args[0] else args[0] + (" " + Joined(args[1..]))
  }

  lemma {:induction false} SpacedArg(a: string, rest: string)
    requires NUL !in a
    ensures Spaced(a + ([NUL] + rest)) == a + (" " + Spaced(rest))
  {
    var s := a + ([NUL] + rest);
    if a == "" {
      assert s == [NUL] + rest && s[1..] == rest;
    } else {
      DropInFirst(a, [NUL] + rest, 1);
      SpacedArg(a[1..], rest);
      Reassociate([a[0]], a[1..], " " + Spaced(rest));
      assert [a[0]] + a[1..] == a;
    }
  }

  lemma {:induction false} SpacedPacked(args: seq<string>)
    requires args != [] && forall i | 0 <= i < |args| :: NUL !in args[i]
    ensures Spaced(Packed(args)) == Joined(args) + " "
  {
    SpacedArg(args[0], Packed(args[1..]));
    if |args| == 1 {
      assert Packed(args[1..]) == "";
      assert " " + "" == " ";
    } else {
      SpacedPacked(args[1..]);
      Reassociate(" ", Joined(args[1..]), " ");
      Reassociate(args[0], " " + Joined(args[1..]), " ");
    }
  }

  /** A command line that fits, with a non-empty first argument, comes out as its arguments
      joined by single spaces, later empty ones included. */
  lemma {:induction false} ArgumentsJoined(args: seq<string>, size: nat)
    requires args != [] && args[0] != "" && forall i | 0 <= i < |args| :: NUL !in args[i]
    requires |Packed(args)| <= size - 1
    ensures CommandLine(Packed(args), size) == Joined(args)
  {
    assert Packed(args)[0] == args[0][0];
    SpacedPacked(args);
    var s := Joined(args) + " ";
    assert s[..|s| - 1] == Joined(args);
  }

  /** Empty arguments before the first other one leave nothing. */
  lemma {:induction false} LeadingEmptiesDropped(empties: seq<string>, input: string, size: nat)
    requires size > 0 && forall i | 0 <= i < |empties| :: empties[i] == ""
    ensures CommandLine(Packed(empties) + input, size) == CommandLine(input, size)
  {
    if empties == [] {
      assert "" + input == input;
    } else {
      var more := Packed(empties[1..]);
      assert Packed(empties) == [NUL] + more;
      assert (([NUL] + more) + input)[1..] == more + input;
      LeadingEmptiesDropped(empties[1..], input, size);
    }
  }
}
