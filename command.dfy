/**
 * The shell command that starts the renderer for one page: the binary,
 * one `name=value` flag per stored argument in order, the render script,
 * the page address (base64-encoded and quoted unless told otherwise), and
 * the optional `--notices` and `--warnings` switches, joined by spaces.
 */
module Command {
  import opened Wrappers
  import opened JsText
  import opened Args
  import Base64
  import Utf8

  const UrlEncodedFlag: string := "--url-base64-encoded"
  const NoticesFlag: string := "--notices"
  const WarningsFlag: string := "--warnings"

  function FlagTokens(args: ArgList): (r: seq<string>)
    ensures |r| == |args|
    ensures forall i :: 0 <= i < |args| ==> r[i] == args[i].0 + "=" + args[i].1
  {
    seq(|args|, i requires 0 <= i < |args| => args[i].0 + "=" + args[i].1)
  }

  /** The page address as the script receives it when it is encoded:
      the base64 form of its UTF-8 bytes between double quotes. */
  function EncodedUrlToken(url: string): (t: string)
    ensures |t| >= 2 && t[0] == '"' && t[|t| - 1] == '"'
    ensures Base64.Decode(t[1..|t| - 1]) == Some(Utf8.EncodeString(url))
  {
    var body := Base64.Encode(Utf8.EncodeString(url));
    Base64.DecodeEncode(Utf8.EncodeString(url));
    var t := "\"" + body + "\"";
    assert t[1..|t| - 1] == body;
    t
  }

  /** `base64EncodedUrl` is `None` when the argument is left out, which
      counts as asking for the encoded form. */
  function UrlTokens(url: string, base64EncodedUrl: Option<bool>): (r: seq<string>)
    ensures base64EncodedUrl != Some(false) ==> r == [EncodedUrlToken(url), UrlEncodedFlag]
    ensures base64EncodedUrl == Some(false) ==> r == [url]
  {
    if base64EncodedUrl != Some(false) then [EncodedUrlToken(url), UrlEncodedFlag] else [url]
  }

  function SwitchTokens(notices: bool, warnings: bool): seq<string> {
    (if notices then [NoticesFlag] else []) + (if warnings then [WarningsFlag] else [])
  }

  /** The words `_getCommandExecString` pushes before joining them: the
      binary, the flags in the order of `args`, the script, then the rest. */
  function CommandTokens(binary: string, args: ArgList, scriptPath: string, url: string,
                         base64EncodedUrl: Option<bool>, notices: bool, warnings: bool): (r: seq<string>)
    ensures |r| == |args| + 2 + |UrlTokens(url, base64EncodedUrl)| + |SwitchTokens(notices, warnings)|
    ensures r[0] == binary && r[|args| + 1] == scriptPath
    ensures forall i :: 0 <= i < |args| ==> r[i + 1] == args[i].0 + "=" + args[i].1
    ensures r[|args| + 2..] == UrlTokens(url, base64EncodedUrl) + SwitchTokens(notices, warnings)
  {
    var r := [binary] + FlagTokens(args) + [scriptPath] + (UrlTokens(url, base64EncodedUrl) + SwitchTokens(notices, warnings));
    assert forall i :: 0 <= i < |args| ==> r[i + 1] == FlagTokens(args)[i];
    r
  }

  /** `--notices` and `--warnings` follow the script exactly when their
      options are set (an address passed raw could itself read as one). */
  lemma SwitchesFollowScript(url: string, base64EncodedUrl: Option<bool>, notices: bool, warnings: bool)
    requires base64EncodedUrl == Some(false) ==> url != NoticesFlag && url != WarningsFlag
    ensures NoticesFlag in UrlTokens(url, base64EncodedUrl) + SwitchTokens(notices, warnings) <==> notices
    ensures WarningsFlag in UrlTokens(url, base64EncodedUrl) + SwitchTokens(notices, warnings) <==> warnings
  {
    NotASwitch();
    EncodedUrlNotASwitch(url);
    var u := UrlTokens(url, base64EncodedUrl);
    var w := SwitchTokens(notices, warnings);
    assert NoticesFlag in u + w <==> NoticesFlag in u || NoticesFlag in w;
    assert WarningsFlag in u + w <==> WarningsFlag in u || WarningsFlag in w;
  }

  lemma NotASwitch()
    ensures UrlEncodedFlag != NoticesFlag && UrlEncodedFlag != WarningsFlag && NoticesFlag != WarningsFlag
  {
    assert UrlEncodedFlag[2] != NoticesFlag[2] && UrlEncodedFlag[2] != WarningsFlag[2] && NoticesFlag[2] != WarningsFlag[2];
  }

  lemma EncodedUrlNotASwitch(url: string)
    ensures EncodedUrlToken(url) != NoticesFlag && EncodedUrlToken(url) != WarningsFlag
  {
    assert EncodedUrlToken(url)[0] != NoticesFlag[0];
  }

  function CommandLine(binary: string, args: ArgList, scriptPath: string, url: string,
                       base64EncodedUrl: Option<bool>, notices: bool, warnings: bool): string {
    JoinWith(CommandTokens(binary, args, scriptPath, url, base64EncodedUrl, notices, warnings), ' ')
  }

  /** The encoded address never contains whitespace, so it stays one word
      of the command line whatever the address holds. */
  lemma EncodedUrlIsOneWord(url: string)
    ensures EncodedUrlToken(url) != "" && NoSpace(EncodedUrlToken(url))
  {
    var bytes := Utf8.EncodeString(url);
    var body := Base64.Encode(bytes);
    assert EncodedUrlToken(url) == "\"" + body + "\"";
    forall i | 0 <= i < |body|
      ensures !IsSpace(body[i])
    {
      assert Base64.IsSymbol(body[i]) || body[i] == '=';
    }
  }

  /** Every token is a non-empty run of non-whitespace characters. */
  predicate Words(tokens: seq<string>) {
    forall i :: 0 <= i < |tokens| ==> tokens[i] != "" && NoSpace(tokens[i])
  }

  lemma WordsConcat(a: seq<string>, b: seq<string>)
    requires Words(a) && Words(b)
    ensures Words(a + b)
  {
    forall i | 0 <= i < |a + b|
      ensures (a + b)[i] != "" && NoSpace((a + b)[i])
    {
      if i < |a| {
        assert (a + b)[i] == a[i];
      } else {
        assert (a + b)[i] == b[i - |a|];
      }
    }
  }

  lemma FlagWords(args: ArgList)
    requires forall i :: 0 <= i < |args| ==> NoSpace(args[i].0) && NoSpace(args[i].1)
    ensures Words(FlagTokens(args))
  {
    forall i | 0 <= i < |args|
      ensures FlagTokens(args)[i] != "" && NoSpace(FlagTokens(args)[i])
    {
      NoSpaceConcat(args[i].0, "=", args[i].1);
    }
  }

  lemma SwitchesAreWords()
    ensures NoSpace(UrlEncodedFlag) && NoSpace(NoticesFlag) && NoSpace(WarningsFlag)
  {
  }

  lemma TailWords(url: string, notices: bool, warnings: bool)
    ensures Words(UrlTokens(url, None) + SwitchTokens(notices, warnings))
  {
    SwitchesAreWords();
    EncodedUrlIsOneWord(url);
    var u := UrlTokens(url, None);
    var w := SwitchTokens(notices, warnings);
    assert u == [EncodedUrlToken(url), UrlEncodedFlag];
    assert Words(u) by {
      assert u[0] != "" && NoSpace(u[0]) && u[1] != "" && NoSpace(u[1]);
    }
    assert Words(w) by {
      forall i | 0 <= i < |w|
        ensures w[i] != "" && NoSpace(w[i])
      {
        assert w[i] == NoticesFlag || w[i] == WarningsFlag;
      }
    }
    WordsConcat(u, w);
  }

  /** When the binary, script path, names and values contain no whitespace,
      splitting the command line on whitespace gives back exactly the
      tokens: the shell sees one word per token, in order. */
  lemma CommandLineWords(binary: string, args: ArgList, scriptPath: string, url: string, notices: bool, warnings: bool)
    requires binary != "" && NoSpace(binary) && scriptPath != "" && NoSpace(scriptPath)
    requires forall i :: 0 <= i < |args| ==> NoSpace(args[i].0) && NoSpace(args[i].1)
    ensures SplitOnSpaces(CommandLine(binary, args, scriptPath, url, None, notices, warnings))
      == CommandTokens(binary, args, scriptPath, url, None, notices, warnings)
  {
    var tokens := CommandTokens(binary, args, scriptPath, url, None, notices, warnings);
    var tail := UrlTokens(url, None) + SwitchTokens(notices, warnings);
    assert tokens == [binary] + FlagTokens(args) + [scriptPath] + tail;
    FlagWords(args);
    TailWords(url, notices, warnings);
    WordsConcat([binary], FlagTokens(args));
    WordsConcat([binary] + FlagTokens(args), [scriptPath]);
    WordsConcat([binary] + FlagTokens(args) + [scriptPath], tail);
    SplitOnSpacesJoin(tokens);
  }

  lemma NoSpaceConcat(a: string, b: string, c: string)
    requires NoSpace(a) && NoSpace(b) && NoSpace(c)
    ensures NoSpace(a + b + c)
  {
  }
}
