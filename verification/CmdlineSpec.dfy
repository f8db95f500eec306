/** What the kernel command line asks of the module loader (early/helpers/kmod.cc), told on
    plain strings: words, keys and comma-separated elements. */
module CmdlineSpec {
  import opened Text

  datatype Item = Load(name: string) | Blacklist(name: string)

  /** The leading non-empty pieces. */
  function UpToEmpty(pieces: seq<string>): seq<string> {
    if pieces == [] || pieces[0] == "" then [] else [pieces[0]] + UpToEmpty(pieces[1..])
  }

  function Elements(list: string): seq<string> {
    UpToEmpty(Split(list, ','))
  }

  function AllLoad(names: seq<string>): seq<Item> {
    if names == [] then [] else [Load(names[0])] + AllLoad(names[1..])
  }

  function AllBlacklist(names: seq<string>): seq<Item> {
    if names == [] then [] else [Blacklist(names[0])] + AllBlacklist(names[1..])
  }

  /** A word counts when it has a `=` and its key starts with "module" and abbreviates
      `modules_load`, `modules-load` or, failing those, `module_blacklist`. */
  function WordItems(word: string): seq<Item> {
    var e := Find(word, '=');
    if e == |word| then []
    else
      var key, names := word[..e], Elements(word[e + 1..]);
      if !("module" <= key) then []
      else if key <= "modules_load" || key <= "modules-load" then AllLoad(names)
      else if key <= "module_blacklist" then AllBlacklist(names)
      else []
  }

  function WordsItems(words: seq<string>): seq<Item> {
    if words == [] then [] else WordItems(words[0]) + WordsItems(words[1..])
  }

  /** Everything the command line asks for, in order. */
  function Items(line: string): seq<Item> {
    WordsItems(Split(line, ' '))
  }

  function Loads(items: seq<Item>): seq<string> {
    if items == [] then []
    else (if items[0].Load? then [items[0].name] else []) + Loads(items[1..])
  }

  function Blacklisted(items: seq<Item>): set<string> {
    set i | 0 <= i < |items| && items[i].Blacklist? :: items[i].name
  }

  lemma {:induction false} LoadsAppend(a: seq<Item>, b: seq<Item>)
    ensures Loads(a + b) == Loads(a) + Loads(b)
  {
    if a == [] {
      assert a + b == b;
    } else {
      assert (a + b)[1..] == a[1..] + b;
      LoadsAppend(a[1..], b);
    }
  }

  lemma BlacklistedAppend(a: seq<Item>, b: seq<Item>)
    ensures Blacklisted(a + b) == Blacklisted(a) + Blacklisted(b)
  {
    forall x | x in Blacklisted(a) + Blacklisted(b) ensures x in Blacklisted(a + b) {
      if x in Blacklisted(a) {
        var i :| 0 <= i < |a| && a[i].Blacklist? && a[i].name == x;
        assert (a + b)[i] == a[i];
      } else {
        var i :| 0 <= i < |b| && b[i].Blacklist? && b[i].name == x;
        assert (a + b)[|a| + i] == b[i];
      }
    }
  }

  // The same items told from a position in the line, which is how the scanner meets them.

  function WordEnd(s: string, p: nat): (e: nat)
    requires p <= |s|
    ensures p <= e <= |s| && (e < |s| ==> s[e] == ' ')
    ensures forall k :: p <= k < e ==> s[k] != ' '
    decreases |s| - p
  {
    if p == |s| || s[p] == ' ' then p else WordEnd(s, p + 1)
  }

  predicate AtStart(s: string, p: nat)
    requires p <= |s|
  {
    p == 0 || s[p - 1] == ' '
  }

  /** The items of the words that start at `p` or later. */
  function ItemsFrom(s: string, p: nat): seq<Item>
    requires p <= |s| + 1
    decreases |s| + 1 - p
  {
    if p > |s| then []
    else
      var e := WordEnd(s, p);
      (if AtStart(s, p) then WordItems(s[p..e]) else []) + ItemsFrom(s, e + 1)
  }

  predicate ModuleAt(s: string, p: nat) {
    p + 6 <= |s| && s[p..p + 6] == "module"
  }

  lemma WordNeedsModule(word: string)
    ensures WordItems(word) != [] ==> |word| >= 6 && word[..6] == "module"
  {
    var key := word[..Find(word, '=')];
    assert "module" <= key ==> word[..6] == key[..6];
  }

  lemma NoItemsHere(s: string, p: nat)
    requires p <= |s| && !ModuleAt(s, p)
    ensures WordItems(s[p..WordEnd(s, p)]) == []
  {
    hide WordItems, WordEnd;
    var word := s[p..WordEnd(s, p)];
    WordNeedsModule(word);
    assert |word| >= 6 ==> word[..6] == s[p..p + 6];
  }

  /** Positions without "module" can be passed over. */
  lemma PassOver(s: string, p: nat)
    requires p <= |s| && !(AtStart(s, p) && ModuleAt(s, p))
    ensures ItemsFrom(s, p) == ItemsFrom(s, p + 1)
  {
    hide WordItems, ItemsFrom, WordEnd, ModuleAt;
    if AtStart(s, p) { NoItemsHere(s, p); }
    var e := WordEnd(s, p);
    ItemsFromUnfold(s, p);
    if e > p {
      ItemsFromUnfold(s, p + 1);
    }
  }

  lemma ItemsFromUnfold(s: string, p: nat)
    requires p <= |s|
    ensures AtStart(s, p) ==> ItemsFrom(s, p) == WordItems(s[p..WordEnd(s, p)]) + ItemsFrom(s, WordEnd(s, p) + 1)
    ensures !AtStart(s, p) ==> ItemsFrom(s, p) == ItemsFrom(s, WordEnd(s, p) + 1)
    ensures WordEnd(s, p) > p ==> !AtStart(s, p + 1) && WordEnd(s, p + 1) == WordEnd(s, p)
  {
    hide WordItems;
  }

  lemma {:induction false} PassOverTo(s: string, p: nat, q: nat)
    requires p <= q <= |s| + 1
    requires forall k :: p <= k < q && k <= |s| ==> !(AtStart(s, k) && ModuleAt(s, k))
    ensures ItemsFrom(s, p) == ItemsFrom(s, q)
    decreases q - p
  {
    hide ModuleAt, ItemsFrom;
    if p < q {
      PassOver(s, p);
      PassOverTo(s, p + 1, q);
    }
  }

  lemma LastWordItems(s: string, p: nat)
    requires p <= |s| && AtStart(s, p) && WordEnd(s, p) == |s|
    ensures ItemsFrom(s, p) == WordsItems(Split(s[p..], ' '))
  {
    ItemsFromUnfold(s, p);
    assert ItemsFrom(s, |s| + 1) == [];
    hide WordItems, ItemsFrom, WordEnd, Split;
    assert s[p..] == s[p..|s|];
    SplitPiece(s[p..], ' ');
    WordsItemsCons(s[p..], []);
    assert [s[p..]] + [] == [s[p..]];
  }

  lemma {:induction false} ItemsFromStart(s: string, p: nat)
    requires p <= |s| && AtStart(s, p)
    ensures ItemsFrom(s, p) == WordsItems(Split(s[p..], ' '))
    decreases |s| - p
  {
    var e := WordEnd(s, p);
    if e < |s| {
      var next := e + 1;
      FirstWordSplit(s, p, e, next);
      WordsItemsCons(s[p..e], Split(s[next..], ' '));
      ItemsFromStart(s, next);
      ItemsFromUnfold(s, p);
      hide ItemsFrom, WordEnd, Split, WordsItems, WordItems;
      calc {
        ItemsFrom(s, p);
        WordItems(s[p..e]) + ItemsFrom(s, next);
        WordsItems([s[p..e]] + Split(s[next..], ' '));
        WordsItems(Split(s[p..], ' '));
      }
    } else {
      LastWordItems(s, p);
    }
  }

  lemma FirstWordSplit(s: string, p: nat, e: nat, next: nat)
    requires p <= e < |s| && next == e + 1 && s[e] == ' ' && ' ' !in s[p..e]
    ensures Split(s[p..], ' ') == [s[p..e]] + Split(s[next..], ' ')
  {
    hide Split;
    SplitPiece(s[p..e], ' ');
    assert s[p..] == s[p..e] + [' '] + s[next..];
    SplitAppend(s[p..e], s[next..], ' ');
  }

  lemma WordsItemsCons(word: string, words: seq<string>)
    ensures WordsItems([word] + words) == WordItems(word) + WordsItems(words)
  {
    assert ([word] + words)[1..] == words;
  }

  /** The two ways of reading a line agree. */
  lemma ItemsFromZero(s: string)
    ensures ItemsFrom(s, 0) == Items(s)
  {
    assert s[0..] == s;
    ItemsFromStart(s, 0);
  }

  // ---- What words mean.

  lemma {:induction false} NoEmptyNames(names: seq<string>)
    requires forall i :: 0 <= i < |names| ==> names[i] != ""
    ensures UpToEmpty(names) == names
  {
    if names != [] {
      NoEmptyNames(names[1..]);
    }
  }

  /** A list that is written out is read as its names. */
  lemma ElementsOfList(names: seq<string>)
    requires names != [] && forall i :: 0 <= i < |names| ==> names[i] != "" && ',' !in names[i]
    ensures Elements(Join(names, ',')) == names
  {
    SplitJoin(names, ',');
    NoEmptyNames(names);
  }

  lemma WordOf(key: string, list: string)
    requires '=' !in key
    ensures Find(key + "=" + list, '=') == |key| && (key + "=" + list)[..|key|] == key
    ensures (key + "=" + list)[|key| + 1..] == list
  {
    var word := key + "=" + list;
    assert word[|key|] == '=' && forall j :: 0 <= j < |key| ==> word[j] == key[j];
    FindAt(word, '=', |key|);
  }

  /** What a word with a sign means, by its key. */
  lemma KeyMeans(key: string, list: string)
    requires '=' !in key
    ensures WordItems(key + "=" + list)
         == if "module" <= key && (key <= "modules_load" || key <= "modules-load") then AllLoad(Elements(list))
            else if "module" <= key <= "module_blacklist" then AllBlacklist(Elements(list))
            else []
  {
    WordOf(key, list);
    hide Elements, Find;
  }

  lemma Keywords()
    ensures '=' !in "modules_load" && '=' !in "modules-load" && '=' !in "module_blacklist"
    ensures "module" <= "modules_load" && "module" <= "modules-load" && "module" <= "module_blacklist"
  {
  }

  lemma BlacklistIsNoLoad()
    ensures !("module_blacklist" <= "modules_load") && !("module_blacklist" <= "modules-load")
  {
    assert |"module_blacklist"| > |"modules_load"| == |"modules-load"|;
  }

  /** The modules to load, and those that must not be. */
  lemma ListedModules(names: seq<string>)
    requires names != [] && forall i :: 0 <= i < |names| ==> names[i] != "" && ',' !in names[i]
    ensures WordItems("modules_load" + "=" + Join(names, ',')) == AllLoad(names)
    ensures WordItems("modules-load" + "=" + Join(names, ',')) == AllLoad(names)
    ensures WordItems("module_blacklist" + "=" + Join(names, ',')) == AllBlacklist(names)
  {
    hide WordItems, Join, AllLoad, AllBlacklist, Elements;
    ElementsOfList(names);
    Keywords();
    BlacklistIsNoLoad();
    var list := Join(names, ',');
    KeyMeans("modules_load", list);
    KeyMeans("modules-load", list);
    KeyMeans("module_blacklist", list);
  }

  /** A word without a sign asks for nothing. */
  lemma NoSignNoItems(word: string)
    requires '=' !in word
    ensures WordItems(word) == []
  {
    FindAt(word, '=', |word|);
    hide Elements, Find;
  }

  lemma {:induction false} AllLoadAt(names: seq<string>)
    ensures |AllLoad(names)| == |AllBlacklist(names)| == |names|
    ensures forall i :: 0 <= i < |names| ==> AllLoad(names)[i] == Load(names[i]) && AllBlacklist(names)[i] == Blacklist(names[i])
  {
    if names != [] {
      AllLoadAt(names[1..]);
    }
  }
}
