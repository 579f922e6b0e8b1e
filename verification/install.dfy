/**
 The launcher script `install` writes: a fixed `str.format` template with
 the alias list and the configuration path filled in.
 */
module Install {
  import opened Wrappers
  import opened Text

  /** A piece of a format string: literal text or a named replacement field. */
  datatype Piece = Literal(text: string) | Field(name: string)

  const Shebang: string := "#!/bin/bash"

  /** `TELEWRAP_BASH_FORMAT`: a shebang line, then a `telewrapper wrap`
      call with `{config_file}` and `{users}` fields that passes the
      launcher's own arguments on as the command. */
  const LauncherTemplate: seq<Piece> := [
    Literal(Shebang + "\ntelewrapper wrap --config-file "),
    Field("config_file"),
    Literal(" --users "),
    Field("users"),
    Literal(" --cmd \"$@\"")
  ]

  /** `template.format(**fields)`: the pieces in order, each field replaced by
      its value. A field without a value raises `KeyError`, reported with its
      name. The contract states when filling succeeds; the filled text is
      stated for the launcher template by `LauncherText`. */
  function Format(template: seq<Piece>, fields: map<string, string>): (r: Result<string, string>)
    ensures r.Success? <==> forall i :: 0 <= i < |template| && template[i].Field? ==> template[i].name in fields
    ensures r.Failure? ==> r.error !in fields
    decreases |template|
  {
    if |template| == 0 then Success("")
    else
      var head: Result<string, string> :=
        match template[0]
        case Literal(text) => Success(text)
        case Field(name) => if name in fields then Success(fields[name]) else Failure(name);
      match head
      case Failure(e) => Failure(e)
      case Success(s) =>
        match Format(template[1..], fields)
        case Failure(e) => Failure(e)
        case Success(rest) => Success(s + rest)
  }

  /** The text of the `telewrap` launcher for the given aliases and path:
      both fields are supplied, so the filling cannot fail, and the result is
      the template with the path verbatim and the aliases joined by single
      spaces. */
  function LauncherText(users: seq<string>, configFile: string): (text: string)
    ensures text
      == Shebang + "\ntelewrapper wrap --config-file " + configFile + " --users " + Join(users, ' ') + " --cmd \"$@\""
  {
    var t := LauncherTemplate;
    var f := map["users" := Join(users, ' '), "config_file" := configFile];
    var cmd := " --cmd \"$@\"";
    var j := Join(users, ' ');
    assert t[4..][1..] == [] && t[4..][0] == Literal(cmd);
    assert cmd + "" == cmd;
    assert Format(t[4..], f) == Success(cmd);
    assert t[3..][1..] == t[4..];
    assert Format(t[3..], f) == Success(j + cmd);
    assert t[2..][1..] == t[3..] && t[2..][0] == Literal(" --users ");
    assert Format(t[2..], f) == Success(" --users " + (j + cmd));
    assert t[1..][1..] == t[2..] && t[1..][0] == Field("config_file");
    assert Format(t[1..], f) == Success(configFile + (" --users " + (j + cmd)));
    assert t[0] == Literal(Shebang + "\ntelewrapper wrap --config-file ");
    assert Format(t, f) == Success((Shebang + "\ntelewrapper wrap --config-file ") + (configFile + (" --users " + (j + cmd))));
    Format(t, f).value
  }

  /** The words of the launcher's command line. */
  function LauncherWords(users: seq<string>, configFile: string): seq<string>
  {
    ["telewrapper", "wrap", "--config-file", configFile, "--users"] + users + ["--cmd", "\"$@\""]
  }

  /** The launcher's command line spelled out word by word. */
  lemma LauncherLineWords(users: seq<string>, configFile: string)
    requires |users| >= 1
    ensures Join(LauncherWords(users, configFile), ' ')
      == "telewrapper wrap --config-file " + configFile + " --users " + Join(users, ' ') + " --cmd \"$@\""
  {
    var a, b, c, e, f, g := "telewrapper", "wrap", "--config-file", "--users", "--cmd", "\"$@\"";
    var s := [' '];
    var j := Join(users, ' ');
    JoinFrame(a, b, c, configFile, e, users, f, g, ' ');
    assert LauncherWords(users, configFile) == [a, b, c, configFile, e] + users + [f, g];
    LauncherLiterals();
    AssocLine(a, b, c, configFile, e, j, f, g, s);
  }

  /** The launcher's fixed words with their separating spaces, as literals.
      Kept apart so that these facts are proved without the surrounding context. */
  lemma LauncherLiterals()
    ensures "telewrapper" + [' '] + "wrap" + [' '] + "--config-file" + [' '] == "telewrapper wrap --config-file "
    ensures [' '] + "--users" + [' '] == " --users "
    ensures [' '] + "--cmd" + [' '] + "\"$@\"" == " --cmd \"$@\""
  {
  }

  lemma AssocLine(a: string, b: string, c: string, d: string, e: string, m: string, f: string, g: string, s: string)
    ensures a + s + b + s + c + s + d + s + e + s + m + s + f + s + g
      == (a + s + b + s + c + s) + d + (s + e + s) + m + (s + f + s + g)
  {
  }

  /** Joining a five-word head, a non-empty middle and a two-word tail. */
  lemma JoinFrame(a: string, b: string, c: string, d: string, e: string, mid: seq<string>, f: string, g: string, sep: char)
    requires |mid| >= 1
    ensures Join([a, b, c, d, e] + mid + [f, g], sep)
      == a + [sep] + b + [sep] + c + [sep] + d + [sep] + e + [sep] + Join(mid, sep) + [sep] + f + [sep] + g
  {
    var head := [a, b, c, d, e];
    JoinAppend(head + mid, [f, g], sep);
    JoinAppend(head, mid, sep);
    Join5(a, b, c, d, e, sep);
    Join2(f, g, sep);
  }

  lemma Join2(f: string, g: string, sep: char)
    ensures Join([f, g], sep) == f + [sep] + g
  {
    assert [f, g] == [f] + [g];
    JoinCons(f, [g], sep);
  }

  lemma Join5(a: string, b: string, c: string, d: string, e: string, sep: char)
    ensures Join([a, b, c, d, e], sep) == a + [sep] + b + [sep] + c + [sep] + d + [sep] + e
  {
    var s := [sep];
    assert Join([d, e], sep) == d + s + e by { Join2(d, e, sep); }
    assert Join([c, d, e], sep) == c + s + (d + s + e) by { JoinCons(c, [d, e], sep); }
    assert Join([b, c, d, e], sep) == b + s + (c + s + (d + s + e)) by { JoinCons(b, [c, d, e], sep); }
    assert Join([a, b, c, d, e], sep) == a + s + (b + s + (c + s + (d + s + e))) by { JoinCons(a, [b, c, d, e], sep); }
    assert a + s + (b + s + (c + s + (d + s + e))) == a + s + b + s + c + s + d + s + e;
  }

  /** The second line is the launcher's words joined by single spaces. */
  lemma LauncherLine(users: seq<string>, configFile: string)
    requires |users| >= 1
    ensures LauncherText(users, configFile) == Shebang + "\n" + Join(LauncherWords(users, configFile), ' ')
  {
    LauncherLineWords(users, configFile);
    var p, j := Shebang + "\n", Join(users, ' ');
    assert Shebang + "\ntelewrapper wrap --config-file " == p + "telewrapper wrap --config-file ";
    assert p + "telewrapper wrap --config-file " + configFile + " --users " + j + " --cmd \"$@\""
      == p + ("telewrapper wrap --config-file " + configFile + " --users " + j + " --cmd \"$@\"");
  }

  /** When neither the path nor an alias holds a space or a line break, the
      launcher is two lines, and splitting its command line at single spaces
      gives back the path and exactly the given aliases. */
  lemma LauncherRoundTrip(users: seq<string>, configFile: string)
    requires |users| >= 1
    requires SeparatorFree(users, ' ') && SeparatorFree(users, '\n')
    requires ' ' !in configFile && '\n' !in configFile
    ensures var lines := Split(LauncherText(users, configFile), '\n');
      && |lines| == 2
      && lines[0] == Shebang
      && Split(lines[1], ' ') == LauncherWords(users, configFile)
  {
    var words := LauncherWords(users, configFile);
    var line := Join(words, ' ');
    LauncherLine(users, configFile);
    assert Shebang + "\n" + line == Shebang + ['\n'] + line;
    assert SeparatorFree(words, '\n') by {
      forall i | 0 <= i < |words| ensures '\n' !in words[i] {
        if 5 <= i < 5 + |users| {
          assert words[i] == users[i - 5];
        }
      }
    }
    assert SeparatorFree(words, ' ') by {
      forall i | 0 <= i < |words| ensures ' ' !in words[i] {
        if 5 <= i < 5 + |users| {
          assert words[i] == users[i - 5];
        }
      }
    }
    JoinAvoids(words, ' ', '\n');
    SplitSingle(Shebang, '\n');
    SplitSingle(line, '\n');
    SplitAround(Shebang, '\n', line);
    SplitJoin(words, ' ');
  }
}
