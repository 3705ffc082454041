/** internal/api/handlers_device.go: the single-quoted arguments of the commands sent to a device, read back
    by the quoting rules of the POSIX shell (IEEE Std 1003.1-2017, Shell Command Language, section 2.2). */
module ShellQuoting {
  import opened Options

  // ---- The commands ----

  /** Every single quote is replaced by: close the quotes, an escaped quote, open the quotes again. */
  function Safe(s: string): string {
    if s == "" then "" else (if s[0] == '\'' then "'\\''" else [s[0]]) + Safe(s[1..])
  }

  function Quoted(s: string): string {
    "'" + Safe(s) + "'"
  }

  /** PushNotification: refused without a title or a body; the tag has a default. */
  function NotificationCommand(title: string, body: string, tag: string): Option<string> {
    if title == "" || body == "" then None
    else Some("cmd" + " " + ("notification" + " " + ("post" + " " + ("-S" + " " + ("bigtext" + " " + ("-t" + " " +
              (Quoted(title) + " " + (Quoted(if tag == "" then "drizz" else tag) + " " + Quoted(body)))))))))
  }

  function ClipboardCommand(user: string, text: string): string {
    "cmd" + " " + ("clipboard" + " " + ("set-primary-clip" + " " + ("-u" + " " + (user + " " + ("--value" + " " + Quoted(text))))))
  }

  function InputTextCommand(text: string): string {
    "input" + " " + ("text" + " " + Quoted(text))
  }

  // ---- The shell ----

  /** Characters that stand for themselves outside quotes. */
  predicate Plain(c: char) {
    'a' <= c <= 'z' || 'A' <= c <= 'Z' || '0' <= c <= '9' || c == '-' || c == '_' || c == '.' || c == '/'
  }

  predicate PlainWord(w: string) {
    w != "" && forall i :: 0 <= i < |w| ==> Plain(w[i])
  }

  function Preceded(word: Option<string>, words: Option<seq<string>>): Option<seq<string>> {
    match (word, words)
    case (Some(w), Some(ws)) => Some([w] + ws)
    case (None, _) => words
    case (_, None) => None
  }

  function Grown(word: Option<string>, c: char): Option<string> {
    Some((if word.Some? then word.value else "") + [c])
  }

  /** The words of a simple command. word is the one being read, if any; inside single quotes every character
      but the quote stands for itself; outside, a backslash quotes the next character and disappears before a
      newline. None for an unfinished quote, or for anything that is not a plain word: an operator, an
      expansion, a double quote. */
  function Words(s: string, word: Option<string>, quoted: bool): Option<seq<string>>
    decreases |s|
  {
    if s == "" then
      if quoted then None else Preceded(word, Some([]))
    else if quoted then
      if s[0] == '\'' then Words(s[1..], word, false) else Words(s[1..], Grown(word, s[0]), true)
    else if s[0] == ' ' then
      Preceded(word, Words(s[1..], None, false))
    else if s[0] == '\'' then
      Words(s[1..], Some(if word.Some? then word.value else ""), true)
    else if s[0] == '\\' then
      if |s| == 1 then None
      else if s[1] == '\n' then Words(s[2..], word, false)
      else Words(s[2..], Grown(word, s[1]), false)
    else if Plain(s[0]) then
      Words(s[1..], Grown(word, s[0]), false)
    else
      None
  }

  function Parse(command: string): Option<seq<string>> {
    Words(command, None, false)
  }

  // ---- Reading back ----

  /** Inside the quotes the escaped text yields the text itself, and the quotes close behind it. */
  lemma {:induction false} SafeTextReadsBack(s: string, rest: string, w: string)
    ensures Words(Safe(s) + "'" + rest, Some(w), true) == Words(rest, Some(w + s), false)
  {
    var all := Safe(s) + "'" + rest;
    if s == "" {
      assert all == "'" + rest && all[1..] == rest;
      assert w + s == w;
    } else {
      var more := Safe(s[1..]) + "'" + rest;
      SafeTextReadsBack(s[1..], rest, w + [s[0]]);
      assert w + [s[0]] + s[1..] == w + s;
      if s[0] == '\'' {
        assert all == "'\\''" + more;
        assert all[1..] == "\\''" + more;
        assert all[1..][2..] == "'" + more;
        assert all[1..][2..][1..] == more;
        assert Words(all, Some(w), true) == Words(all[1..], Some(w), false);
        assert Words(all[1..], Some(w), false) == Words(all[1..][2..], Some(w + [s[0]]), false);
        assert Words(all[1..][2..], Some(w + [s[0]]), false) == Words(more, Some(w + [s[0]]), true);
      } else {
        assert all == [s[0]] + more && all[1..] == more;
      }
    }
  }

  lemma QuotedArgumentReadsBack(s: string, rest: string)
    ensures Words(Quoted(s) + rest, None, false) == Words(rest, Some(s), false)
  {
    var all := Quoted(s) + rest;
    assert all[0] == '\'' && all[1..] == Safe(s) + "'" + rest;
    SafeTextReadsBack(s, rest, "");
    assert "" + s == s;
  }

  lemma QuotedArgumentThenMore(s: string, rest: string)
    ensures Parse(Quoted(s) + " " + rest) == Preceded(Some(s), Parse(rest))
  {
    assert Quoted(s) + " " + rest == Quoted(s) + (" " + rest);
    QuotedArgumentReadsBack(s, " " + rest);
    assert (" " + rest)[1..] == rest;
  }

  lemma QuotedArgumentLast(s: string)
    ensures Parse(Quoted(s)) == Some([s])
  {
    assert Quoted(s) + "" == Quoted(s) && [s] + [] == [s];
    QuotedArgumentReadsBack(s, "");
  }

  lemma {:induction false} PlainTextReadsBack(w: string, rest: string, read: string)
    requires forall i :: 0 <= i < |w| ==> Plain(w[i])
    requires w != "" || read != ""
    ensures Words(w + " " + rest, if read == "" then None else Some(read), false) == Preceded(Some(read + w), Parse(rest))
  {
    var all := w + " " + rest;
    if w == "" {
      assert all == " " + rest && all[1..] == rest;
      assert read + w == read;
    } else {
      assert all[1..] == w[1..] + " " + rest && all[0] == w[0];
      assert !(w[0] == ' ' || w[0] == '\'' || w[0] == '\\') by { assert Plain(w[0]); }
      PlainTextReadsBack(w[1..], rest, read + [w[0]]);
      assert read + [w[0]] + w[1..] == read + w;
      assert "" + [w[0]] == [w[0]];
    }
  }

  lemma WordThenMore(w: string, rest: string)
    requires PlainWord(w)
    ensures Parse(w + " " + rest) == Preceded(Some(w), Parse(rest))
  {
    PlainTextReadsBack(w, rest, "");
    assert "" + w == w;
  }

  /** Whatever the title, tag and body contain, the device's shell sees the fixed words and then exactly
      those three arguments. */
  lemma NotificationArgumentsArrive(title: string, body: string, tag: string)
    requires title != "" && body != ""
    ensures NotificationCommand(title, body, tag).Some?
    ensures Parse(NotificationCommand(title, body, tag).value) ==
              Some(["cmd", "notification", "post", "-S", "bigtext", "-t", title, if tag == "" then "drizz" else tag, body])
  {
    WordsOfNotification(title, if tag == "" then "drizz" else tag, body);
  }

  lemma WordsOfNotification(title: string, shown: string, body: string)
    ensures Parse("cmd" + " " + ("notification" + " " + ("post" + " " + ("-S" + " " + ("bigtext" + " " + ("-t" + " " +
              (Quoted(title) + " " + (Quoted(shown) + " " + Quoted(body))))))))) ==
              Some(["cmd", "notification", "post", "-S", "bigtext", "-t", title, shown, body])
  {
    QuotedArgumentLast(body);
    QuotedArgumentThenMore(shown, Quoted(body));
    var three := Quoted(shown) + " " + Quoted(body);
    QuotedArgumentThenMore(title, three);
    var four := Quoted(title) + " " + three;
    WordThenMore("-t", four);
    WordThenMore("bigtext", "-t" + " " + four);
    WordThenMore("-S", "bigtext" + " " + ("-t" + " " + four));
    WordThenMore("post", "-S" + " " + ("bigtext" + " " + ("-t" + " " + four)));
    WordThenMore("notification", "post" + " " + ("-S" + " " + ("bigtext" + " " + ("-t" + " " + four))));
    assert ["cmd"] + (["notification"] + (["post"] + (["-S"] + (["bigtext"] + (["-t"] + ([title] + ([shown] + [body])))))))
        == ["cmd", "notification", "post", "-S", "bigtext", "-t", title, shown, body];
    WordThenMore("cmd", "notification" + " " + ("post" + " " + ("-S" + " " + ("bigtext" + " " + ("-t" + " " + four)))));
  }

  lemma {:induction false} QuotesPieceByPiece(a: string, b: string)
    ensures Safe(a + b) == Safe(a) + Safe(b)
  {
    if a == "" {
      assert a + b == b;
    } else {
      assert (a + b)[1..] == a[1..] + b;
      QuotesPieceByPiece(a[1..], b);
      var first := if a[0] == '\'' then "'\\''" else [a[0]];
      assert Safe(a) == first + Safe(a[1..]) && Safe(a + b) == first + (Safe(a[1..]) + Safe(b));
    }
  }

  lemma {:induction false} NothingToQuote(a: string)
    requires '\'' !in a
    ensures Safe(a) == a
  {
    if a != "" {
      NothingToQuote(a[1..]);
      assert [a[0]] + a[1..] == a;
    }
  }

  /** The quoting, for every string: it goes piece by piece, changes nothing but single quotes, and a single quote
      closes the quotes, stands escaped, and opens them again. */
  lemma QuotingIs(a: string, b: string)
    ensures Safe(a + b) == Safe(a) + Safe(b)
    ensures '\'' !in a ==> Safe(a) == a && Quoted(a) == "'" + a + "'"
    ensures Safe("'") == "'\\''"
  {
    QuotesPieceByPiece(a, b);
    if '\'' !in a { NothingToQuote(a); }
    assert "'"[1..] == "" && "'\\''" + "" == "'\\''";
  }

  /** The rules of the shell that the commands rely on (IEEE Std 1003.1-2017, sections 2.2 and 2.3): a word of
      ordinary characters is itself; so is, without its quotes, a text in single quotes; an unfinished quote is no
      command; a backslash outside quotes stands for the character behind it. */
  lemma ShellRules(w: string, s: string, c: char)
    ensures PlainWord(w) ==> Parse(w + " " + "x") == Some([w, "x"])
    ensures '\'' !in s ==> Parse("'" + s + "'") == Some([s])
    ensures '\'' !in s ==> Parse("'" + s) == None
    ensures c != '\n' ==> Parse("\\" + [c]) == Some([[c]])
  {
    if PlainWord(w) {
      WordThenMore(w, "x");
      OneCharacter('x');
      assert Preceded(Some(w), Some(["x"])) == Some([w] + ["x"]) && [w] + ["x"] == [w, "x"];
    }
    if '\'' !in s {
      QuotingIs(s, "");
      QuotedArgumentLast(s);
      OpenQuoteIsNoCommand(s, "");
      assert ("'" + s)[1..] == s;
    }
    OneCharacter(c);
  }

  lemma OneCharacter(c: char)
    ensures Plain(c) ==> Parse([c]) == Some([[c]])
    ensures c != '\n' ==> Parse("\\" + [c]) == Some([[c]])
  {
    var s := "\\" + [c];
    assert "" + [c] == [c] && Grown(None, c) == Some([c]);
    assert [c][1..] == "" && s[2..] == "" && s[0] == '\\' && s[1] == c;
    assert Words("", Some([c]), false) == Some([[c]] + []) && [[c]] + [] == [[c]];
    assert c != '\n' ==> Words(s, None, false) == Words(s[2..], Grown(None, c), false);
  }

  lemma {:induction false} OpenQuoteIsNoCommand(s: string, read: string)
    requires '\'' !in s
    ensures Words(s, Some(read), true) == None
    decreases |s|
  {
    if s != "" {
      OpenQuoteIsNoCommand(s[1..], read + [s[0]]);
    }
  }

  /** A notification is refused exactly without a title or without a body. */
  lemma NotificationIsRefusedExactlyWhen(title: string, body: string, tag: string)
    ensures NotificationCommand(title, body, tag).None? <==> title == "" || body == ""
  {
  }

  /** The same for the clipboard; the user id stands unquoted, and the shell reads it as one word because it is
      plain. */
  lemma ClipboardTextArrives(user: string, text: string)
    requires PlainWord(user)
    ensures Parse(ClipboardCommand(user, text)) ==
              Some(["cmd", "clipboard", "set-primary-clip", "-u", user, "--value", text])
  {
    QuotedArgumentLast(text);
    var last := Quoted(text);
    WordThenMore("--value", last);
    WordThenMore(user, "--value" + " " + last);
    WordThenMore("-u", user + " " + ("--value" + " " + last));
    WordThenMore("set-primary-clip", "-u" + " " + (user + " " + ("--value" + " " + last)));
    WordThenMore("clipboard", "set-primary-clip" + " " + ("-u" + " " + (user + " " + ("--value" + " " + last))));
    assert ["cmd"] + (["clipboard"] + (["set-primary-clip"] + (["-u"] + ([user] + (["--value"] + [text])))))
        == ["cmd", "clipboard", "set-primary-clip", "-u", user, "--value", text];
    WordThenMore("cmd", "clipboard" + " " + ("set-primary-clip" + " " + ("-u" + " " + (user + " " + ("--value" + " " + last)))));
  }

  lemma InputTextArrives(text: string)
    ensures Parse(InputTextCommand(text)) == Some(["input", "text", text])
  {
    QuotedArgumentLast(text);
    WordThenMore("text", Quoted(text));
    assert ["input"] + (["text"] + [text]) == ["input", "text", text];
    WordThenMore("input", "text" + " " + Quoted(text));
  }
}
