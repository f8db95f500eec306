/** The mount option parser (early/helpers/mnt.cc): an option string folded into a flag word
    and the text of the options the table does not know. */
module MountOptions {
  import opened Text
  import opened MountTable

  /** Flags and the text of the options the table does not know. */
  datatype Parsed = Parsed(flags: Flags, extras: string)

  function ApplyOpt(o: MntOpt, flags: Flags): Flags {
    var cleared := flags - o.flagmask;
    if o.invert then cleared - o.flagset else cleared + o.flagset
  }

  function AppendOption(text: string, option: string): string {
    if text == "" then option else text + [','] + option
  }

  function ParseToken(table: seq<MntOpt>, t: string, p: Parsed): Parsed {
    if t == "" then p
    else match Search(table, t)
      case Some(o) => p.(flags := ApplyOpt(o, p.flags))
      case None =>
        if t == "defaults" then p.(flags := p.flags - DEFAULTS_RESET)
        else p.(extras := AppendOption(p.extras, t))
  }

  function ParseTokens(table: seq<MntOpt>, ts: seq<string>, p: Parsed): Parsed {
    if ts == [] then p else ParseTokens(table, ts[1..], ParseToken(table, ts[0], p))
  }

  /** What an option string does to flags and left-over text. */
  function Parse(table: seq<MntOpt>, opts: string, p: Parsed): Parsed {
    ParseTokens(table, Split(opts, ','), p)
  }

  /** `strsep`: the next piece and what is left, nothing once the last piece is out. */
  method StrSep(opts: string) returns (piece: string, rest: Option<string>)
    ensures Split(opts, ',') == [piece] + (if rest.Some? then Split(rest.value, ',') else [])
    ensures rest.Some? ==> |rest.value| < |opts|
  {
    var n := 0;
    while n < |opts| && opts[n] != ','
      invariant 0 <= n <= |opts|
      invariant ',' !in opts[..n]
    {
      n := n + 1;
    }
    piece := opts[..n];
    SplitPiece(piece, ',');
    if n < |opts| {
      rest := Some(opts[n + 1..]);
      assert opts == piece + [','] + opts[n + 1..];
      SplitAppend(piece, opts[n + 1..], ',');
    } else {
      rest := None;
      assert opts == piece;
    }
  }

  method ParseMntopts(opts: Option<string>, flags: Flags, eopts: string) returns (flags': Flags, eopts': string)
    ensures opts == None ==> flags' == flags && eopts' == eopts
    ensures opts.Some? ==> Parsed(flags', eopts') == Parse(KNOWN_OPTS, opts.value, Parsed(flags, eopts))
  {
    flags', eopts' := flags, eopts;
    var rest := opts;
    ghost var table := KNOWN_OPTS;
    ghost var todo := if opts.Some? then Split(opts.value, ',') else [];
    ghost var goal := ParseTokens(table, todo, Parsed(flags, eopts));
    while rest.Some?
      invariant todo == if rest.Some? then Split(rest.value, ',') else []
      invariant ParseTokens(table, todo, Parsed(flags', eopts')) == goal
      decreases if rest.Some? then 1 + |rest.value| else 0
    {
      var optn;
      ghost var before := Parsed(flags', eopts');
      optn, rest := StrSep(rest.value);
      assert todo[0] == optn;
      todo := todo[1..];
      assert ParseTokens(table, todo, ParseToken(table, optn, before)) == goal;
      if optn == "" {
        continue;
      }
      var optv := FindOpt(optn);
      if optv.Some? {
        flags' := flags' - optv.value.flagmask;
        if optv.value.invert {
          flags' := flags' - optv.value.flagset;
        } else {
          flags' := flags' + optv.value.flagset;
        }
      }
      if optv == None && optn == "defaults" {
        flags' := flags' - {Rdonly, Nosuid, Nodev, Noexec, Synchronous};
        continue;
      }
      if optv == None {
        if eopts' != "" {
          eopts' := eopts' + [','];
        }
        eopts' := eopts' + optn;
      }
      assert Parsed(flags', eopts') == ParseToken(table, optn, before);
    }
  }

  // Fold algebra.

  lemma {:induction false} ParseTokensAppend(table: seq<MntOpt>, a: seq<string>, b: seq<string>, p: Parsed)
    ensures ParseTokens(table, a + b, p) == ParseTokens(table, b, ParseTokens(table, a, p))
  {
    if a == [] {
      assert a + b == b;
    } else {
      assert (a + b)[1..] == a[1..] + b;
      ParseTokensAppend(table, a[1..], b, ParseToken(table, a[0], p));
    }
  }

  /** Parsing "a,b" is parsing "a" and then "b". */
  lemma ParseAppend(table: seq<MntOpt>, a: string, b: string, p: Parsed)
    ensures Parse(table, a + [','] + b, p) == Parse(table, b, Parse(table, a, p))
  {
    SplitAppend(a, b, ',');
    ParseTokensAppend(table, Split(a, ','), Split(b, ','), p);
  }

  /** The bits a token forces, and the ones among them it forces to one. */
  datatype Effect = Effect(writes: Flags, ones: Flags)

  function Apply(e: Effect, flags: Flags): Flags {
    flags - e.writes + e.ones
  }

  function Then(a: Effect, b: Effect): Effect {
    Effect(a.writes + b.writes, a.ones - b.writes + b.ones)
  }

  function OptEffect(o: MntOpt): Effect {
    Effect(o.flagmask + o.flagset, if o.invert then {} else o.flagset)
  }

  function TokenEffect(table: seq<MntOpt>, t: string): Effect {
    if t == "" then Effect({}, {})
    else match Search(table, t)
      case Some(o) => OptEffect(o)
      case None => Effect(if t == "defaults" then DEFAULTS_RESET else {}, {})
  }

  function TokensEffect(table: seq<MntOpt>, ts: seq<string>): Effect {
    if ts == [] then Effect({}, {}) else Then(TokenEffect(table, ts[0]), TokensEffect(table, ts[1..]))
  }

  lemma OptIsEffect(o: MntOpt, flags: Flags)
    ensures ApplyOpt(o, flags) == Apply(OptEffect(o), flags)
  {
  }

  lemma ThenIsSequence(a: Effect, b: Effect, flags: Flags)
    ensures Apply(Then(a, b), flags) == Apply(b, Apply(a, flags))
  {
  }

  lemma TokenIsEffect(table: seq<MntOpt>, t: string, p: Parsed)
    ensures ParseToken(table, t, p).flags == Apply(TokenEffect(table, t), p.flags)
  {
    var found := Search(table, t);
    if found.Some? { OptIsEffect(found.value, p.flags); }
  }

  /** The flag part of a parse is `(f & ~M) | S`, with M and S read off the tokens alone. */
  lemma {:induction false} ParseIsEffect(table: seq<MntOpt>, ts: seq<string>, p: Parsed)
    ensures ParseTokens(table, ts, p).flags == Apply(TokensEffect(table, ts), p.flags)
  {
    if ts != [] {
      TokenIsEffect(table, ts[0], p);
      ParseIsEffect(table, ts[1..], ParseToken(table, ts[0], p));
      ThenIsSequence(TokenEffect(table, ts[0]), TokensEffect(table, ts[1..]), p.flags);
    }
  }

  /** Parsing the same string twice changes no flag the second time. */
  lemma ParseFlagsIdempotent(table: seq<MntOpt>, opts: string, p: Parsed)
    ensures Parse(table, opts, Parse(table, opts, p)).flags == Parse(table, opts, p).flags
  {
    var ts := Split(opts, ',');
    ParseIsEffect(table, ts, p);
    ParseIsEffect(table, ts, Parse(table, opts, p));
    ApplyTwice(TokensEffect(table, ts), p.flags);
  }

  lemma ApplyTwice(e: Effect, flags: Flags)
    ensures Apply(e, Apply(e, flags)) == Apply(e, flags)
  {
  }

  lemma TokenOnesWritten(table: seq<MntOpt>, t: string)
    ensures TokenEffect(table, t).ones <= TokenEffect(table, t).writes
  {
  }

  /** A bit is decided by the last token that writes it ... */
  lemma {:induction false} LastWriterDecides(table: seq<MntOpt>, ts: seq<string>, i: nat, bit: Bit, p: Parsed)
    requires i < |ts| && bit in TokenEffect(table, ts[i]).writes
    requires forall j :: i < j < |ts| ==> bit !in TokenEffect(table, ts[j]).writes
    ensures bit in ParseTokens(table, ts, p).flags <==> bit in TokenEffect(table, ts[i]).ones
  {
    var q := ParseToken(table, ts[0], p);
    if i == 0 {
      TokenIsEffect(table, ts[0], p);
      NoWriterKeeps(table, ts[1..], bit, q);
    } else {
      LastWriterDecides(table, ts[1..], i - 1, bit, q);
    }
  }

  /** ... and kept when no token writes it. */
  lemma {:induction false} NoWriterKeeps(table: seq<MntOpt>, ts: seq<string>, bit: Bit, p: Parsed)
    requires forall j :: 0 <= j < |ts| ==> bit !in TokenEffect(table, ts[j]).writes
    ensures bit in ParseTokens(table, ts, p).flags <==> bit in p.flags
  {
    if ts != [] {
      TokenIsEffect(table, ts[0], p);
      TokenOnesWritten(table, ts[0]);
      NoWriterKeeps(table, ts[1..], bit, ParseToken(table, ts[0], p));
    }
  }
}
