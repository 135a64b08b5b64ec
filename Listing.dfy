/**
 * The parser of `listarUsuarios`: the remote loop prints one
 * `"<username> <password>"` line per password file, and the output is split
 * into lines, trimmed, stripped of blank lines and cut at the first space.
 */
module Listing {
  import opened JsText

  /** One `{username, password}` record of the listing. */
  datatype Account = Account(username: string, password: string)

  /** `const [username, ...senhaArr] = line.split(" ")` and `senhaArr.join(" ")`. */
  function ParseLine(line: string): (a: Account)
    ensures ' ' !in a.username
    ensures ' ' in line ==> a.username + " " + a.password == line
    ensures ' ' !in line ==> a == Account(line, "")
  {
    var parts := Split(line, ' ');
    JoinSplit(line, ' ');
    Account(parts[0], Join(parts[1..], ' '))
  }

  /** What one line contributes: nothing when it trims to empty, its trimmed form otherwise. */
  function Kept(line: string): (k: seq<string>)
    ensures |k| <= 1
    ensures forall l :: l in k ==> l != [] && Trimmed(l)
  {
    var t := Trim(line);
    if t == [] then [] else [t]
  }

  /** `.map(line => line.trim()).filter(line => line.length > 0)`. */
  function NonBlank(lines: seq<string>): (kept: seq<string>)
    ensures |kept| <= |lines|
    ensures forall l :: l in kept ==> l != [] && Trimmed(l)
  {
    if lines == [] then [] else Kept(lines[0]) + NonBlank(lines[1..])
  }

  /** Every non-blank line is kept, trimmed, and every kept line is a trimmed input line. */
  lemma {:induction false} NonBlankComplete(lines: seq<string>)
    ensures forall i :: 0 <= i < |lines| && Trim(lines[i]) != [] ==> Trim(lines[i]) in NonBlank(lines)
    ensures forall l :: l in NonBlank(lines) ==> exists i :: 0 <= i < |lines| && Trim(lines[i]) == l
  {
    if lines != [] {
      NonBlankComplete(lines[1..]);
      var kept := NonBlank(lines);
      assert kept == Kept(lines[0]) + NonBlank(lines[1..]);
      forall i | 0 <= i < |lines| && Trim(lines[i]) != [] ensures Trim(lines[i]) in kept {
        if i > 0 {
          assert lines[i] == lines[1..][i - 1];
        }
      }
      forall l | l in kept ensures exists i :: 0 <= i < |lines| && Trim(lines[i]) == l {
        if l !in NonBlank(lines[1..]) {
          assert Trim(lines[0]) == l;
        } else {
          var i :| 0 <= i < |lines[1..]| && Trim(lines[1..][i]) == l;
          assert Trim(lines[i + 1]) == l;
        }
      }
    }
  }

  /** The filter works line by line, in input order: filtering a concatenation concatenates the results. */
  lemma {:induction false} NonBlankAppend(a: seq<string>, b: seq<string>)
    ensures NonBlank(a + b) == NonBlank(a) + NonBlank(b)
  {
    if a == [] {
      assert a + b == b;
    } else {
      assert (a + b)[0] == a[0] && (a + b)[1..] == a[1..] + b;
      NonBlankAppend(a[1..], b);
    }
  }

  /** A blank line contributes nothing; any other line contributes its trimmed form. */
  lemma NonBlankSingle(line: string)
    ensures NonBlank([line]) == if Trim(line) == [] then [] else [Trim(line)]
  {
    assert [line][1..] == [];
  }

  /** The final `.map(...)` over the kept lines. */
  function ParseAll(lines: seq<string>): (accounts: seq<Account>)
    ensures |accounts| == |lines|
  {
    if lines == [] then [] else [ParseLine(lines[0])] + ParseAll(lines[1..])
  }

  /** The records `listarUsuarios` builds from the command's output. */
  function ParseListing(output: string): (accounts: seq<Account>)
    ensures |accounts| == |NonBlank(Split(output, '\n'))| <= |Split(output, '\n')|
  {
    ParseAll(NonBlank(Split(output, '\n')))
  }

  /**
   * `a` is what one trimmed, non-empty line gives: a non-empty username with
   * no space, no line break anywhere, and the line rebuilt from the two
   * fields (or the whole line as username when it has no space).
   */
  predicate RecordOf(line: string, a: Account) {
    && a.username != [] && ' ' !in a.username
    && '\n' !in a.username && '\n' !in a.password
    && (if ' ' in line then a.username + " " + a.password == line else a == Account(line, ""))
  }

  /** The record of one trimmed, non-empty line without line breaks. */
  lemma LineShape(l: string)
    requires l != [] && Trimmed(l) && '\n' !in l
    ensures RecordOf(l, ParseLine(l))
  {
    var a := ParseLine(l);
    assert a.username != [] by {
      assert !IsWhitespace(l[0]);
      if ' ' in l {
        assert (a.username + " " + a.password)[0] == l[0];
      }
    }
    if ' ' in l {
      assert forall c :: c in a.username ==> c in l;
      assert forall c :: c in a.password ==> c in l;
    }
  }

  /** Every record comes from one non-blank line: a username with no space (and not empty), and what followed the first space. */
  lemma {:induction false} ParseAllShape(lines: seq<string>)
    requires forall l :: l in lines ==> l != [] && Trimmed(l) && '\n' !in l
    ensures forall i :: 0 <= i < |lines| ==> RecordOf(lines[i], ParseAll(lines)[i])
  {
    if lines != [] {
      assert forall l :: l in lines[1..] ==> l in lines;
      ParseAllShape(lines[1..]);
      forall i | 0 <= i < |lines| ensures RecordOf(lines[i], ParseAll(lines)[i]) {
        if i == 0 {
          assert lines[0] in lines;
          LineShape(lines[0]);
        } else {
          assert lines[i] == lines[1..][i - 1];
          assert ParseAll(lines)[i] == ParseAll(lines[1..])[i - 1];
        }
      }
    }
  }

  /** The lines `NonBlank` keeps are free of line breaks when the input lines are. */
  lemma {:induction false} NonBlankNoBreaks(lines: seq<string>)
    requires forall l :: l in lines ==> '\n' !in l
    ensures forall l :: l in NonBlank(lines) ==> '\n' !in l
  {
    if lines != [] {
      NonBlankNoBreaks(lines[1..]);
      var t := Trim(lines[0]);
      assert lines[0] in lines;
      assert forall c :: c in t ==> c in lines[0];
    }
  }

  /** The shape of every record `listarUsuarios` returns. */
  lemma ListingShape(output: string)
    ensures |ParseListing(output)| == |NonBlank(Split(output, '\n'))|
    ensures forall i :: 0 <= i < |ParseListing(output)| ==>
              var a := ParseListing(output)[i];
              var line := NonBlank(Split(output, '\n'))[i];
              && a.username != [] && ' ' !in a.username
              && '\n' !in a.username && '\n' !in a.password
              && (if ' ' in line then a.username + " " + a.password == line else a == Account(line, ""))
  {
    var lines := NonBlank(Split(output, '\n'));
    NonBlankNoBreaks(Split(output, '\n'));
    ParseAllShape(lines);
  }

  /** What the remote loop prints: `echo "<username> <password>"` for each password file. */
  function Render(accounts: seq<Account>): (out: string)
    ensures out == [] <==> accounts == []
    ensures out != [] ==> out[|out| - 1] == '\n'
  {
    if accounts == [] then []
    else accounts[0].username + " " + accounts[0].password + "\n" + Render(accounts[1..])
  }

  /** An account the listing can show faithfully. */
  predicate Listable(a: Account) {
    && a.username != []
    && (forall c :: c in a.username ==> !IsWhitespace(c))
    && '\n' !in a.password
    && (a.password == [] || !IsWhitespace(a.password[|a.password| - 1]))
  }

  /** Each printed line parses back to its account. */
  lemma LineRoundTrip(a: Account)
    requires Listable(a)
    ensures Trim(a.username + " " + a.password) != []
    ensures ParseLine(Trim(a.username + " " + a.password)) == a
  {
    var u, p := a.username, a.password;
    assert Trimmed(u) by {
      assert u[0] in u && u[|u| - 1] in u;
    }
    if p == [] {
      assert u + " " + p == u + " ";
      TrimWordSpace(u);
      assert ' ' !in u by {
        assert IsWhitespace(' ');
      }
    } else {
      var line := u + " " + p;
      assert line[0] == u[0] && line[|line| - 1] == p[|p| - 1];
      TrimTrimmed(line);
      assert ' ' !in u by {
        assert IsWhitespace(' ');
      }
      assert line == u + [' '] + p;
      SplitPrefix(u, p, ' ');
      assert Split(line, ' ')[1..] == Split(p, ' ');
      JoinSplit(p, ' ');
    }
  }

  /** The first printed line splits off the rest of the output. */
  lemma RenderSplit(accounts: seq<Account>)
    requires accounts != [] && Listable(accounts[0])
    ensures Split(Render(accounts), '\n')
         == [accounts[0].username + " " + accounts[0].password] + Split(Render(accounts[1..]), '\n')
  {
    var a := accounts[0];
    var line := a.username + " " + a.password;
    var rest := Render(accounts[1..]);
    assert Render(accounts) == line + ['\n'] + rest;
    assert '\n' !in line by {
      assert IsWhitespace('\n');
      assert forall c :: c in line ==> c in a.username || c == ' ' || c in a.password;
    }
    SplitPrefix(line, rest, '\n');
  }

  /** A line that is not blank contributes one record, ahead of the rest. */
  lemma ParseNonBlankCons(line: string, lines: seq<string>)
    requires Trim(line) != []
    ensures ParseAll(NonBlank([line] + lines)) == [ParseLine(Trim(line))] + ParseAll(NonBlank(lines))
  {
    assert ([line] + lines)[1..] == lines;
    var kept := NonBlank([line] + lines);
    assert kept == [Trim(line)] + NonBlank(lines);
    assert kept[1..] == NonBlank(lines);
  }

  /** An empty output lists no account. */
  lemma EmptyListing()
    ensures ParseListing([]) == []
  {
    assert Split([], '\n') == [[]];
    assert Trim([]) == [];
  }

  /** Parsing the remote loop's output gives back the accounts it printed, in order. */
  lemma {:induction false} ListingRoundTrip(accounts: seq<Account>)
    requires forall i :: 0 <= i < |accounts| ==> Listable(accounts[i])
    ensures ParseListing(Render(accounts)) == accounts
  {
    if accounts == [] {
      EmptyListing();
    } else {
      var a, tail := accounts[0], accounts[1..];
      var line := a.username + " " + a.password;
      var lines := Split(Render(tail), '\n');
      calc {
        ParseListing(Render(accounts));
        == { RenderSplit(accounts); }
        ParseAll(NonBlank([line] + lines));
        == { LineRoundTrip(a); ParseNonBlankCons(line, lines); }
        [ParseLine(Trim(line))] + ParseListing(Render(tail));
        == { LineRoundTrip(a); ListingRoundTrip(tail); }
        [a] + tail;
        == { assert accounts == [a] + tail; }
        accounts;
      }
    }
  }
}
