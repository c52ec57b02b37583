/** The kubectl-style argument lists the engine builds, and the parser that reads them back. */
module GetArgs {
  import opened Wrappers

  datatype GetShape =
    | ListAll(resource: string)
    | ListNs(resource: string, ns: string)
    | GetNamed(resource: string, ns: string, name: string)
    | GetClusterScoped(resource: string, name: string)

  // ----- tokens -----

  datatype Kind = AllFlag | NsFlag | OutputFlag | UnknownFlag | Plain

  function KindOf(tok: string): Kind {
    if tok == "-A" || tok == "--all-namespaces" then AllFlag
    else if tok == "-n" || tok == "--namespace" then NsFlag
    else if tok == "-o" then OutputFlag
    else if |tok| > 0 && tok[0] == '-' then UnknownFlag
    else Plain
  }

  datatype Token = Token(kind: Kind, text: string)

  function Lex(words: seq<string>): (toks: seq<Token>)
    ensures |toks| == |words|
    ensures forall i :: 0 <= i < |words| ==> toks[i] == Token(KindOf(words[i]), words[i])
  {
    seq(|words|, i requires 0 <= i < |words| => Token(KindOf(words[i]), words[i]))
  }

  // ----- what a list of tokens says -----

  /** The token at `i` is the value of the flag before it. */
  predicate IsValue(toks: seq<Token>, i: nat)
    requires i <= |toks|
  {
    i > 0 && !IsValue(toks, i - 1) && (toks[i - 1].kind == NsFlag || toks[i - 1].kind == OutputFlag)
  }

  /** The token at `i` stands for itself, as a token of kind `k`. */
  predicate Stands(toks: seq<Token>, i: nat, k: Kind)
    requires i < |toks|
  {
    !IsValue(toks, i) && toks[i].kind == k
  }

  predicate GivesNs(toks: seq<Token>, i: nat)
    requires 0 < i < |toks|
  {
    IsValue(toks, i) && toks[i - 1].kind == NsFlag
  }

  /** What the first `n` tokens say: whether they ask for all namespaces, the last namespace given, the name. */
  datatype Collected = Collected(all: bool, ns: Option<string>, name: Option<string>)

  ghost predicate SaysAll(toks: seq<Token>, n: nat, all: bool)
    requires n <= |toks|
  {
    all <==> exists i :: 0 <= i < n && Stands(toks, i, AllFlag)
  }

  ghost predicate SaysName(toks: seq<Token>, n: nat, name: Option<string>)
    requires n <= |toks|
  {
    match name
    case None => forall i :: 0 <= i < n ==> !Stands(toks, i, Plain)
    case Some(x) => exists i :: 0 <= i < n && Stands(toks, i, Plain) && toks[i].text == x
  }

  /** Of the first `n` tokens the one at `i` is the last to give a namespace. */
  ghost predicate GivesNsLast(toks: seq<Token>, i: nat, n: nat)
    requires 0 < i < n <= |toks|
  {
    GivesNs(toks, i) && forall j :: i < j < n ==> !GivesNs(toks, j)
  }

  ghost predicate SaysNs(toks: seq<Token>, n: nat, ns: Option<string>)
    requires n <= |toks|
  {
    match ns
    case None => forall i :: 0 < i < n ==> !GivesNs(toks, i)
    case Some(x) => exists i :: 0 < i < n && GivesNsLast(toks, i, n) && toks[i].text == x
  }

  ghost predicate Says(toks: seq<Token>, n: nat, c: Collected)
    requires n <= |toks|
  {
    SaysAll(toks, n, c.all) && SaysName(toks, n, c.name) && SaysNs(toks, n, c.ns)
  }

  /** No unknown flag, and no second positional, among the first `n` tokens. */
  ghost predicate Clean(toks: seq<Token>, n: nat)
    requires n <= |toks|
  {
    && (forall i :: 0 <= i < n ==> !Stands(toks, i, UnknownFlag))
    && (forall i, j :: 0 <= i < j < n ==> !(Stands(toks, i, Plain) && Stands(toks, j, Plain)))
  }

  /** A namespace flag at the end has no value. */
  predicate NsWithoutValue(toks: seq<Token>) {
    toks != [] && Stands(toks, |toks| - 1, NsFlag)
  }

  ghost predicate Readable(toks: seq<Token>) {
    Clean(toks, |toks|) && !NsWithoutValue(toks)
  }

  function ShapeOf(resource: string, c: Collected): Result<GetShape> {
    if c.all && c.name.None? then Ok(ListAll(resource))
    else if !c.all && c.ns.Some? && c.name.None? then Ok(ListNs(resource, c.ns.value))
    else if !c.all && c.ns.Some? && c.name.Some? then Ok(GetNamed(resource, c.ns.value, c.name.value))
    else if !c.all && c.ns.None? && c.name.Some? then Ok(GetClusterScoped(resource, c.name.value))
    else Err
  }

  /**
  The meaning of an argument list: a shape exactly for the lists that begin with `get` and a resource,
  give every namespace flag a value, hold no unknown flag and at most one positional, and ask for one of
  the four shapes; an error for every other list.
  */
  ghost predicate ParsesTo(args: seq<string>, r: Result<GetShape>) {
    if |args| < 2 || args[0] != "get" then r.Err?
    else
      var toks := Lex(args[2..]);
      if Readable(toks) then exists c :: Says(toks, |toks|, c) && r == ShapeOf(args[1], c) else r.Err?
  }

  // ----- the parser -----

  /** What one more token adds. */
  function AddToken(toks: seq<Token>, n: nat, c: Collected): Collected
    requires n < |toks|
  {
    if IsValue(toks, n) then (if toks[n - 1].kind == NsFlag then c.(ns := Some(toks[n].text)) else c)
    else if toks[n].kind == AllFlag then c.(all := true)
    else if toks[n].kind == Plain then c.(name := Some(toks[n].text))
    else c
  }

  lemma SaysNext(toks: seq<Token>, n: nat, c: Collected)
    requires n < |toks| && Says(toks, n, c)
    ensures Says(toks, n + 1, AddToken(toks, n, c))
  {
    var c' := AddToken(toks, n, c);
    assert SaysAll(toks, n + 1, c'.all) by {
      if c.all {
        var i :| 0 <= i < n && Stands(toks, i, AllFlag);
        assert 0 <= i < n + 1 && Stands(toks, i, AllFlag);
      } else if Stands(toks, n, AllFlag) {
        assert c'.all;
      }
    }
    assert SaysName(toks, n + 1, c'.name) by {
      if Stands(toks, n, Plain) {
        assert c'.name == Some(toks[n].text);
      } else if c.name.Some? {
        var i :| 0 <= i < n && Stands(toks, i, Plain) && toks[i].text == c.name.value;
        assert 0 <= i < n + 1 && Stands(toks, i, Plain);
      }
    }
    assert SaysNs(toks, n + 1, c'.ns) by {
      if n > 0 && GivesNs(toks, n) {
        assert c'.ns == Some(toks[n].text);
      } else if c.ns.Some? {
        var i :| 0 < i < n && GivesNsLast(toks, i, n) && toks[i].text == c.ns.value;
        assert forall j :: i < j < n + 1 ==> !GivesNs(toks, j);
      }
    }
  }

  lemma CleanNext(toks: seq<Token>, n: nat, c: Collected)
    requires n < |toks| && Says(toks, n, c) && Clean(toks, n)
    requires !Stands(toks, n, UnknownFlag) && (Stands(toks, n, Plain) ==> c.name.None?)
    ensures Clean(toks, n + 1)
  {
    assert SaysName(toks, n, c.name);
  }

  lemma SecondPositional(toks: seq<Token>, n: nat, c: Collected)
    requires n < |toks| && Says(toks, n, c) && Stands(toks, n, Plain) && c.name.Some?
    ensures !Clean(toks, |toks|)
  {
    assert SaysName(toks, n, c.name);
    var i :| 0 <= i < n && Stands(toks, i, Plain);
  }

  /** A whole flag with its value, or a lone token: the state of the loop after it. */
  ghost predicate ReadTo(toks: seq<Token>, i: nat, c: Collected) {
    && i <= |toks|
    && (i < |toks| ==> !IsValue(toks, i))
    && (i == |toks| ==> !NsWithoutValue(toks))
    && Says(toks, i, c) && Clean(toks, i)
  }

  lemma ReadOne(toks: seq<Token>, i: nat, c: Collected)
    requires i < |toks| && ReadTo(toks, i, c)
    requires toks[i].kind == AllFlag || (toks[i].kind == Plain && c.name.None?)
    ensures ReadTo(toks, i + 1, AddToken(toks, i, c))
  {
    SaysNext(toks, i, c);
    CleanNext(toks, i, c);
  }

  lemma ReadPair(toks: seq<Token>, i: nat, c: Collected)
    requires i + 1 < |toks| && ReadTo(toks, i, c)
    requires toks[i].kind == NsFlag || toks[i].kind == OutputFlag
    ensures ReadTo(toks, i + 2, AddToken(toks, i + 1, c))
  {
    SaysNext(toks, i, c);
    CleanNext(toks, i, c);
    SaysNext(toks, i + 1, c);
    CleanNext(toks, i + 1, c);
  }

  lemma ReadLoneOutput(toks: seq<Token>, i: nat, c: Collected)
    requires i + 1 == |toks| && ReadTo(toks, i, c) && toks[i].kind == OutputFlag
    ensures ReadTo(toks, i + 1, c)
  {
    SaysNext(toks, i, c);
    CleanNext(toks, i, c);
  }

  method ParseTokens(resource: string, toks: seq<Token>) returns (r: Result<GetShape>)
    ensures if Readable(toks) then exists c :: Says(toks, |toks|, c) && r == ShapeOf(resource, c) else r.Err?
  {
    var c := Collected(false, None, None);
    var i := 0;
    while i < |toks|
      invariant ReadTo(toks, i, c)
    {
      match toks[i].kind
      case AllFlag =>
        ReadOne(toks, i, c);
        c := c.(all := true);
        i := i + 1;
      case NsFlag =>
        if i + 1 == |toks| {
          return Err;
        }
        ReadPair(toks, i, c);
        c := c.(ns := Some(toks[i + 1].text));
        i := i + 2;
      case OutputFlag =>
        if i + 1 < |toks| {
          ReadPair(toks, i, c);
          i := i + 2;
        } else {
          ReadLoneOutput(toks, i, c);
          i := i + 1;
        }
      case Plain =>
        if c.name.Some? {
          SecondPositional(toks, i, c);
          return Err;
        }
        ReadOne(toks, i, c);
        c := c.(name := Some(toks[i].text));
        i := i + 1;
      case UnknownFlag =>
        assert Stands(toks, i, UnknownFlag);
        return Err;
    }
    assert Says(toks, |toks|, c);
    r := ShapeOf(resource, c);
  }

  /** What is accepted is clean: no unknown flag and no second positional. */
  method ParseGetArgs(args: seq<string>) returns (r: Result<GetShape>)
    ensures ParsesTo(args, r)
    ensures r.Ok? ==> |args| >= 2 && args[0] == "get" && Clean(Lex(args[2..]), |args| - 2)
  {
    if |args| == 0 || args[0] != "get" || |args| == 1 {
      return Err;
    }
    r := ParseTokens(args[1], Lex(args[2..]));
  }

  /** Nothing is left open: what a list says is determined, so its parse is. */
  lemma SaysOneThing(toks: seq<Token>, a: Collected, b: Collected)
    requires Clean(toks, |toks|) && Says(toks, |toks|, a) && Says(toks, |toks|, b)
    ensures a == b
  {
    assert a.name == b.name by {
      if a.name.Some? {
        var i :| 0 <= i < |toks| && Stands(toks, i, Plain) && toks[i].text == a.name.value;
        assert b.name.Some?;
        var j :| 0 <= j < |toks| && Stands(toks, j, Plain) && toks[j].text == b.name.value;
        assert i == j;
      }
    }
    assert a.ns == b.ns by {
      if a.ns.Some? {
        var i :| 0 < i < |toks| && GivesNsLast(toks, i, |toks|) && toks[i].text == a.ns.value;
        assert b.ns.Some?;
        var k :| 0 < k < |toks| && GivesNsLast(toks, k, |toks|) && toks[k].text == b.ns.value;
        assert i == k;
      }
    }
  }

  /** Every list has one meaning. */
  lemma ParsesToOneThing(args: seq<string>, r: Result<GetShape>, r': Result<GetShape>)
    requires ParsesTo(args, r) && ParsesTo(args, r')
    ensures r == r'
  {
    if |args| >= 2 && args[0] == "get" {
      var toks := Lex(args[2..]);
      if Readable(toks) {
        var c :| Says(toks, |toks|, c) && r == ShapeOf(args[1], c);
        var c' :| Says(toks, |toks|, c') && r' == ShapeOf(args[1], c');
        SaysOneThing(toks, c, c');
      }
    }
  }

  // ----- which lists give which shape -----

  ghost predicate AsksForAll(toks: seq<Token>) {
    exists i :: 0 <= i < |toks| && Stands(toks, i, AllFlag)
  }

  ghost predicate NamesNothing(toks: seq<Token>) {
    forall i :: 0 <= i < |toks| ==> !Stands(toks, i, Plain)
  }

  ghost predicate IsNamed(toks: seq<Token>, name: string) {
    exists i :: 0 <= i < |toks| && Stands(toks, i, Plain) && toks[i].text == name
  }

  ghost predicate GivesNoNs(toks: seq<Token>) {
    forall i :: 0 < i < |toks| ==> !GivesNs(toks, i)
  }

  /** The last namespace given is `ns`. */
  ghost predicate GivesNsAtLast(toks: seq<Token>, ns: string) {
    exists i :: 0 < i < |toks| && GivesNsLast(toks, i, |toks|) && toks[i].text == ns
  }

  /** Each shape, and exactly the token lists that give it. */
  ghost predicate Asks(toks: seq<Token>, resource: string, shape: GetShape) {
    && resource == shape.resource
    && match shape
       case ListAll(_) => AsksForAll(toks) && NamesNothing(toks)
       case ListNs(_, ns) => !AsksForAll(toks) && GivesNsAtLast(toks, ns) && NamesNothing(toks)
       case GetNamed(_, ns, name) => !AsksForAll(toks) && GivesNsAtLast(toks, ns) && IsNamed(toks, name)
       case GetClusterScoped(_, name) => !AsksForAll(toks) && GivesNoNs(toks) && IsNamed(toks, name)
  }

  lemma ShapeIff(args: seq<string>, shape: GetShape)
    ensures ParsesTo(args, Ok(shape)) <==>
              && |args| >= 2 && args[0] == "get"
              && Readable(Lex(args[2..])) && Asks(Lex(args[2..]), args[1], shape)
  {
    if |args| >= 2 && args[0] == "get" && Readable(Lex(args[2..])) {
      ShapeOfSaid(Lex(args[2..]), args[1], shape);
    }
  }

  lemma ShapeOfSaid(toks: seq<Token>, resource: string, shape: GetShape)
    requires Readable(toks)
    ensures (exists c :: Says(toks, |toks|, c) && Ok(shape) == ShapeOf(resource, c)) <==> Asks(toks, resource, shape)
  {
    if c :| Says(toks, |toks|, c) && Ok(shape) == ShapeOf(resource, c) {
      SaidAsks(toks, resource, c, shape);
    }
    if Asks(toks, resource, shape) {
      var c := match shape
        case ListAll(_) => Collected(true, SomeNs(toks), None)
        case ListNs(_, ns) => Collected(false, Some(ns), None)
        case GetNamed(_, ns, name) => Collected(false, Some(ns), Some(name))
        case GetClusterScoped(_, name) => Collected(false, None, Some(name));
      SomeNsIsSaid(toks);
      assert SaysNs(toks, |toks|, c.ns) && SaysName(toks, |toks|, c.name) && SaysAll(toks, |toks|, c.all);
      assert Says(toks, |toks|, c) && Ok(shape) == ShapeOf(resource, c);
    }
  }

  lemma SaidAsks(toks: seq<Token>, resource: string, c: Collected, shape: GetShape)
    requires Says(toks, |toks|, c) && Ok(shape) == ShapeOf(resource, c)
    ensures Asks(toks, resource, shape)
  {
  }

  ghost function LastNs(toks: seq<Token>, n: nat): Option<string>
    requires n <= |toks|
  {
    if n <= 1 then None
    else if GivesNs(toks, n - 1) then Some(toks[n - 1].text)
    else LastNs(toks, n - 1)
  }

  ghost function SomeNs(toks: seq<Token>): Option<string> {
    LastNs(toks, |toks|)
  }

  lemma {:induction false} LastNsIsSaid(toks: seq<Token>, n: nat)
    requires n <= |toks|
    ensures SaysNs(toks, n, LastNs(toks, n))
  {
    if n > 1 {
      if GivesNs(toks, n - 1) {
        assert GivesNsLast(toks, n - 1, n);
      } else {
        LastNsIsSaid(toks, n - 1);
        if LastNs(toks, n - 1).Some? {
          var i :| 0 < i < n - 1 && GivesNsLast(toks, i, n - 1) && toks[i].text == LastNs(toks, n - 1).value;
          assert GivesNsLast(toks, i, n);
        }
      }
    }
  }

  lemma SomeNsIsSaid(toks: seq<Token>)
    ensures SaysNs(toks, |toks|, SomeNs(toks))
  {
    LastNsIsSaid(toks, |toks|);
  }

  // ----- the engine's argument lists -----

  function ListItemsArgs(resource: string, ns: Option<string>): seq<string> {
    ["get", resource] + (match ns case Some(n) => ["-n", n] case None => ["-A"]) + ["-o", "json"]
  }

  function NamedArgs(resource: string, name: string, ns: string): seq<string> {
    ["get", resource, name, "-n", ns, "-o", "json"]
  }

  function NameLastArgs(resource: string, name: string, ns: string): seq<string> {
    ["get", resource, "-n", ns, name, "-o", "json"]
  }

  function ClusterScopedArgs(resource: string, name: string): seq<string> {
    ["get", resource, name, "-o", "json"]
  }

  predicate IsDashed(name: string) { |name| > 0 && name[0] == '-' }

  /** The kind of every word there is. */
  lemma KindIff(tok: string)
    ensures KindOf(tok) == AllFlag <==> tok == "-A" || tok == "--all-namespaces"
    ensures KindOf(tok) == NsFlag <==> tok == "-n" || tok == "--namespace"
    ensures KindOf(tok) == OutputFlag <==> tok == "-o"
    ensures KindOf(tok) == Plain <==> tok == "" || tok[0] != '-'
    ensures KindOf(tok) == UnknownFlag <==>
            tok != "" && tok[0] == '-' && tok !in {"-A", "--all-namespaces", "-n", "--namespace", "-o"}
  {
    assert "-A"[1] == 'A' && "-n"[1] == 'n' && "-o"[1] == 'o';
    assert |"--all-namespaces"| == 16 && |"--namespace"| == 11;
  }

  lemma KindsOfFlags()
    ensures KindOf("-A") == AllFlag && KindOf("-n") == NsFlag && KindOf("-o") == OutputFlag && KindOf("json") == Plain
  {
  }

  /** A name that comes back is one that does not look like a flag. */
  lemma NamesAreNotDashed(args: seq<string>, shape: GetShape)
    requires ParsesTo(args, Ok(shape)) && (shape.GetNamed? || shape.GetClusterScoped?)
    ensures !IsDashed(shape.name)
  {
    var toks := Lex(args[2..]);
    var c :| Says(toks, |toks|, c) && Ok(shape) == ShapeOf(args[1], c);
    SaidNameIsPlain(args[2..], c);
  }

  lemma SaidNameIsPlain(words: seq<string>, c: Collected)
    requires SaysName(Lex(words), |words|, c.name) && c.name.Some?
    ensures !IsDashed(c.name.value)
  {
    var toks := Lex(words);
    var i :| 0 <= i < |toks| && Stands(toks, i, Plain) && toks[i].text == c.name.value;
    PlainIsNotDashed(words[i]);
  }

  lemma PlainIsNotDashed(word: string)
    ensures KindOf(word) == Plain <==> !IsDashed(word)
  {
  }

  lemma ListsRoundTrip(resource: string, ns: string)
    ensures ParsesTo(ListItemsArgs(resource, None), Ok(ListAll(resource)))
    ensures ParsesTo(ListItemsArgs(resource, Some(ns)), Ok(ListNs(resource, ns)))
  {
    KindsOfFlags();
    assert ListItemsArgs(resource, None)[2..] == ["-A", "-o", "json"];
    AllSays(Lex(["-A", "-o", "json"]));
    assert ListItemsArgs(resource, Some(ns))[2..] == ["-n", ns, "-o", "json"];
    NsSays(Lex(["-n", ns, "-o", "json"]));
  }

  lemma AllSays(toks: seq<Token>)
    requires |toks| == 3 && toks[0].kind == AllFlag && toks[1].kind == OutputFlag
    ensures Readable(toks) && Says(toks, 3, Collected(true, None, None))
  {
    assert !IsValue(toks, 0) && !IsValue(toks, 1) && IsValue(toks, 2);
    assert Stands(toks, 0, AllFlag);
  }

  lemma NsSays(toks: seq<Token>)
    requires |toks| == 4 && toks[0].kind == NsFlag && toks[2].kind == OutputFlag
    ensures Readable(toks) && Says(toks, 4, Collected(false, Some(toks[1].text), None))
  {
    assert !IsValue(toks, 0) && IsValue(toks, 1) && !IsValue(toks, 2) && IsValue(toks, 3);
    assert GivesNsLast(toks, 1, 4);
  }

  /** A named get comes back, with the name on either side of the namespace, exactly when the name is no flag. */
  lemma NamedRoundTrip(resource: string, name: string, ns: string)
    ensures ParsesTo(NamedArgs(resource, name, ns), Ok(GetNamed(resource, ns, name))) <==> !IsDashed(name)
    ensures ParsesTo(NameLastArgs(resource, name, ns), Ok(GetNamed(resource, ns, name))) <==> !IsDashed(name)
  {
    if !IsDashed(name) {
      NameFirst(resource, name, ns);
      NameLast(resource, name, ns);
    } else {
      if ParsesTo(NamedArgs(resource, name, ns), Ok(GetNamed(resource, ns, name))) {
        NamesAreNotDashed(NamedArgs(resource, name, ns), GetNamed(resource, ns, name));
      }
      if ParsesTo(NameLastArgs(resource, name, ns), Ok(GetNamed(resource, ns, name))) {
        NamesAreNotDashed(NameLastArgs(resource, name, ns), GetNamed(resource, ns, name));
      }
    }
  }

  lemma NameFirst(resource: string, name: string, ns: string)
    requires !IsDashed(name)
    ensures ParsesTo(NamedArgs(resource, name, ns), Ok(GetNamed(resource, ns, name)))
  {
    KindsOfFlags();
    PlainIsNotDashed(name);
    assert NamedArgs(resource, name, ns)[2..] == [name, "-n", ns, "-o", "json"];
    NameFirstSays(Lex([name, "-n", ns, "-o", "json"]));
  }

  lemma NameFirstSays(toks: seq<Token>)
    requires |toks| == 5 && toks[0].kind == Plain && toks[1].kind == NsFlag
    requires toks[3].kind == OutputFlag && toks[4].kind == Plain
    ensures Readable(toks) && Says(toks, 5, Collected(false, Some(toks[2].text), Some(toks[0].text)))
  {
    assert !IsValue(toks, 0) && !IsValue(toks, 1) && IsValue(toks, 2) && !IsValue(toks, 3) && IsValue(toks, 4);
    assert Stands(toks, 0, Plain) && GivesNsLast(toks, 2, 5);
  }

  lemma NameLast(resource: string, name: string, ns: string)
    requires !IsDashed(name)
    ensures ParsesTo(NameLastArgs(resource, name, ns), Ok(GetNamed(resource, ns, name)))
  {
    KindsOfFlags();
    PlainIsNotDashed(name);
    assert NameLastArgs(resource, name, ns)[2..] == ["-n", ns, name, "-o", "json"];
    NameLastSays(Lex(["-n", ns, name, "-o", "json"]));
  }

  lemma NameLastSays(toks: seq<Token>)
    requires |toks| == 5 && toks[0].kind == NsFlag && toks[2].kind == Plain
    requires toks[3].kind == OutputFlag && toks[4].kind == Plain
    ensures Readable(toks) && Says(toks, 5, Collected(false, Some(toks[1].text), Some(toks[2].text)))
  {
    assert !IsValue(toks, 0) && IsValue(toks, 1) && !IsValue(toks, 2) && !IsValue(toks, 3) && IsValue(toks, 4);
    assert Stands(toks, 2, Plain) && GivesNsLast(toks, 1, 5);
  }

  lemma NameSays(toks: seq<Token>)
    requires |toks| == 3 && toks[0].kind == Plain && toks[1].kind == OutputFlag
    ensures Readable(toks) && Says(toks, 3, Collected(false, None, Some(toks[0].text)))
  {
    assert !IsValue(toks, 0) && !IsValue(toks, 1) && IsValue(toks, 2);
    assert Stands(toks, 0, Plain);
  }

  lemma ClusterScopedRoundTrip(resource: string, name: string)
    ensures ParsesTo(ClusterScopedArgs(resource, name), Ok(GetClusterScoped(resource, name))) <==> !IsDashed(name)
  {
    if !IsDashed(name) {
      KindsOfFlags();
      PlainIsNotDashed(name);
      assert ClusterScopedArgs(resource, name)[2..] == [name, "-o", "json"];
      NameSays(Lex([name, "-o", "json"]));
    } else if ParsesTo(ClusterScopedArgs(resource, name), Ok(GetClusterScoped(resource, name))) {
      NamesAreNotDashed(ClusterScopedArgs(resource, name), GetClusterScoped(resource, name));
    }
  }
}
