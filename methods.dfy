/**
 * The method policy: `parse_methods`, which turns a `-m`/`-d` argument into an optional
 * set of method names, and the allow/deny test at the top of `Handler.do_ALL`.
 */
module Methods {
  import opened Wrappers
  import opened PyStr

  /** The method one token names: none for a blank token, otherwise the token stripped and upper-cased. */
  function TokenMethod(t: string): set<string> {
    var w := Strip(t);
    if w == "" then {} else {Upper(w)}
  }

  /** The methods named by a list of tokens, collected from the first token to the last. */
  function TokenMethods(tokens: seq<string>): set<string> {
    if tokens == [] then {} else TokenMethods(tokens[..|tokens| - 1]) + TokenMethod(tokens[|tokens| - 1])
  }

  /** A method is collected exactly when some non-blank token strips and upper-cases to it. */
  lemma {:induction false} TokenMethodsMembers(tokens: seq<string>)
    ensures forall m :: m in TokenMethods(tokens) <==>
      exists t :: t in tokens && Strip(t) != "" && m == Upper(Strip(t))
  {
    if tokens != [] {
      var init, last := tokens[..|tokens| - 1], tokens[|tokens| - 1];
      TokenMethodsMembers(init);
      assert tokens == init + [last];
      forall m | m in TokenMethods(tokens)
        ensures exists t :: t in tokens && Strip(t) != "" && m == Upper(Strip(t))
      {
        if m in TokenMethods(init) {
          var t :| t in init && Strip(t) != "" && m == Upper(Strip(t));
          assert t in tokens;
        } else {
          assert last in tokens;
        }
      }
      forall m, t | t in tokens && Strip(t) != "" && m == Upper(Strip(t))
        ensures m in TokenMethods(tokens)
      {
        var k :| 0 <= k < |tokens| && tokens[k] == t;
        if k < |init| {
          assert init[k] == t;
        }
      }
    }
  }

  /**
   * What `parse_methods` returns for its argument: no restriction (`None`) for a missing
   * argument or for one without a non-blank token, otherwise the set of named methods.
   */
  function ParsedMethods(arg: Option<string>): Option<set<string>> {
    match arg
    case None => None
    case Some(s) =>
      var methods := TokenMethods(Split(s, ','));
      if methods == {} then None else Some(methods)
  }

  /** A method name as a policy set holds it: non-empty, without surrounding whitespace, upper case. */
  predicate IsMethodName(m: string) {
    m != "" && Strip(m) == m && Upper(m) == m
  }

  /** Collecting one more token adds exactly the method that token names. */
  lemma TokenMethodsSnoc(tokens: seq<string>, i: nat)
    requires i < |tokens|
    ensures TokenMethods(tokens[..i + 1]) == TokenMethods(tokens[..i]) + TokenMethod(tokens[i])
  {
    assert tokens[..i + 1][..i] == tokens[..i];
  }

  /** The loop of `parse_methods`: adds the stripped, upper-cased form of each non-blank token to a set. */
  method CollectMethods(tokens: seq<string>) returns (found: set<string>)
    ensures found == TokenMethods(tokens)
  {
    found := {};
    for i := 0 to |tokens|
      invariant found == TokenMethods(tokens[..i])
    {
      TokenMethodsSnoc(tokens, i);
      var m := Strip(tokens[i]);
      if m == "" {
        continue;
      }
      found := found + {Upper(m)};
    }
    assert tokens[..|tokens|] == tokens;
  }

  /** `parse_methods`: no restriction for a missing argument or one without a non-blank token. */
  method ParseMethods(arg: Option<string>) returns (methods: Option<set<string>>)
    ensures methods == ParsedMethods(arg)
    ensures methods != Some({})
    ensures methods.Some? ==> forall m :: m in methods.value ==> IsMethodName(m)
  {
    if arg.None? {
      return None;
    }
    var found := CollectMethods(Split(arg.value, ','));
    if |found| == 0 {
      return None;
    }
    ParsedMethodsNormalized(arg);
    return Some(found);
  }

  /** Every collected method is a proper method name: non-empty, trimmed and upper case. */
  lemma TokenMethodsNormalized(tokens: seq<string>)
    ensures forall m :: m in TokenMethods(tokens) ==> IsMethodName(m)
  {
    TokenMethodsMembers(tokens);
    forall m | m in TokenMethods(tokens)
      ensures IsMethodName(m)
    {
      var t :| t in tokens && Strip(t) != "" && m == Upper(Strip(t));
      var w := Strip(t);
      StripSpec(t, StrSpace);
      UpperSpec(w);
      StripSpec(m, StrSpace);
    }
  }

  /** Every element of a parsed set is a proper method name. */
  lemma ParsedMethodsNormalized(arg: Option<string>)
    ensures ParsedMethods(arg).Some? ==>
      forall m :: m in ParsedMethods(arg).value ==> IsMethodName(m)
  {
    if arg.Some? {
      TokenMethodsNormalized(Split(arg.value, ','));
    }
  }

  /** No method is collected exactly when every token is blank. */
  lemma TokenMethodsEmpty(tokens: seq<string>)
    ensures TokenMethods(tokens) == {} <==> forall t :: t in tokens ==> AllSpace(t, StrSpace)
  {
    TokenMethodsMembers(tokens);
    forall t | t in tokens
      ensures Strip(t) == "" <==> AllSpace(t, StrSpace)
    {
      StripSpec(t, StrSpace);
    }
    if exists t :: t in tokens && Strip(t) != "" {
      var t :| t in tokens && Strip(t) != "";
      assert Upper(Strip(t)) in TokenMethods(tokens);
    }
  }

  /** `parse_methods` gives no restriction exactly when the argument is missing or every token is blank. */
  lemma ParsedMethodsNone(arg: Option<string>)
    ensures ParsedMethods(arg).None? <==>
      (arg.None? || forall t :: t in Split(arg.value, ',') ==> AllSpace(t, StrSpace))
  {
    if arg.Some? {
      TokenMethodsEmpty(Split(arg.value, ','));
    }
  }

  lemma ParsedMethodsEmpty()
    ensures ParsedMethods(Some("")) == None
  {
    assert Split("", ',') == [""];
  }

  lemma SplitBlankTokens()
    ensures Split(" , ,", ',') == [" ", " ", ""]
  {
    assert " , ," == " " + [','] + " ,";
    assert " ," == " " + [','] + "";
    SplitAtSep(" ", " ,", ',');
    SplitAtSep(" ", "", ',');
  }

  lemma ParsedMethodsBlankTokens()
    ensures ParsedMethods(Some(" , ,")) == None
  {
    SplitBlankTokens();
    var tokens := [" ", " ", ""];
    assert AllSpace(" ", StrSpace) && AllSpace("", StrSpace);
    TokenMethodsEmpty(tokens);
  }

  lemma SplitMethodList()
    ensures Split("get, POST", ',') == ["get", " POST"]
  {
    assert "get, POST" == "get" + [','] + " POST";
    SplitAtSep("get", " POST", ',');
    SplitNoSep(" POST", ',');
  }

  /** A token is a word padded with whitespace: it names the upper-cased word. */
  lemma TokenMethodPadded(pre: string, w: string, post: string)
    requires AllSpace(pre, StrSpace) && AllSpace(post, StrSpace)
    requires w != "" && Trimmed(w, StrSpace)
    ensures TokenMethod(pre + w + post) == {Upper(w)}
  {
    StripPadded(pre, w, post, StrSpace);
  }

  /** A list of two tokens names what each of the two names. */
  lemma TokenMethodsPair(a: string, b: string)
    ensures TokenMethods([a, b]) == TokenMethod(a) + TokenMethod(b)
  {
    var s := [a, b];
    assert s[..|s| - 1] == [a] && s[|s| - 1] == b;
    assert TokenMethods(s) == TokenMethods([a]) + TokenMethod(b);
    assert [a][..0] == [];
    assert TokenMethods([a]) == {} + TokenMethod(a);
  }

  lemma TokenMethodGet(t: string)
    requires t == "get"
    ensures TokenMethod(t) == {"GET"}
  {
    assert t == "" + t + "";
    assert Trimmed(t, StrSpace) by { assert !IsSpace(t[0]) && !IsSpace(t[2]); }
    TokenMethodPadded("", t, "");
    assert Upper(t) == "GET" by {
      assert |Upper(t)| == 3 && Upper(t)[0] == 'G' && Upper(t)[1] == 'E' && Upper(t)[2] == 'T';
    }
  }

  lemma TokenMethodPost(t: string)
    requires t == " POST"
    ensures TokenMethod(t) == {"POST"}
  {
    var w := t[1..];
    assert t == " " + w + "" && AllSpace(" ", StrSpace) && w != "" by {
      assert IsSpace(" "[0]);
    }
    assert Trimmed(w, StrSpace) by { assert !IsSpace(w[0]) && !IsSpace(w[3]); }
    assert Upper(w) == "POST" by {
      assert |Upper(w)| == 4 && Upper(w)[0] == 'P' && Upper(w)[1] == 'O' && Upper(w)[2] == 'S' && Upper(w)[3] == 'T';
    }
    TokenMethodPadded(" ", w, "");
  }

  lemma TokenMethodsOfList(tokens: seq<string>)
    requires tokens == ["get", " POST"]
    ensures TokenMethods(tokens) == {"GET", "POST"}
  {
    TokenMethodsPair(tokens[0], tokens[1]);
    TokenMethodGet(tokens[0]);
    TokenMethodPost(tokens[1]);
  }

  /** `-m "get, POST"` allows exactly `GET` and `POST`. */
  lemma ParsedMethodsList(arg: Option<string>)
    requires arg == Some("get, POST")
    ensures ParsedMethods(arg) == Some({"GET", "POST"})
  {
    SplitMethodList();
    TokenMethodsOfList(Split(arg.value, ','));
  }

  /**
   * The rejection condition of `do_ALL`: the command is rejected when a deny set holds it
   * or an allow set lacks it. The raw command is compared as received, case-sensitively.
   */
  predicate Rejected(command: string, allowed: Option<set<string>>, disallowed: Option<set<string>>) {
    || (disallowed.Some? && command in disallowed.value)
    || (allowed.Some? && command !in allowed.value)
  }

  /** Without sets every command passes; a command in both sets is rejected; one the allow set holds and no deny set holds passes. */
  lemma RejectedCases(command: string, allowed: Option<set<string>>, disallowed: Option<set<string>>)
    ensures !Rejected(command, None, None)
    ensures allowed.Some? && disallowed.Some? && command in allowed.value && command in disallowed.value
      ==> Rejected(command, allowed, disallowed)
    ensures (allowed.None? || command in allowed.value) && (disallowed.None? || command !in disallowed.value)
      ==> !Rejected(command, allowed, disallowed)
    ensures allowed.Some? && command !in allowed.value ==> Rejected(command, allowed, disallowed)
  {
  }

  /**
   * Since parsed sets hold only upper-case names, a command that is not upper case is never
   * denied, and it is rejected exactly when an allow list was given.
   */
  lemma NonUpperCommand(command: string, allowedArg: Option<string>, disallowedArg: Option<string>)
    requires Upper(command) != command
    ensures Rejected(command, ParsedMethods(allowedArg), ParsedMethods(disallowedArg))
        <==> ParsedMethods(allowedArg).Some?
  {
    ParsedMethodsNormalized(allowedArg);
    ParsedMethodsNormalized(disallowedArg);
  }

  /** `-d POST` yields the deny set `{"POST"}`. */
  lemma DenyPostSet()
    ensures ParsedMethods(Some("POST")) == Some({"POST"})
  {
    SplitNoSep("POST", ',');
    assert !IsSpace('P') && !IsSpace('T');
    TrimmedFixed("POST", StrSpace);
    assert Upper("POST") == "POST";
    assert ["POST"][..0] == [];
    assert TokenMethods(["POST"]) == {"POST"};
  }
}
