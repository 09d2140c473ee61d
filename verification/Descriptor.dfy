/** Taproot descriptors of a parent key, printed and imported (bip_44.go; section "Key Expressions" of BIP 380). */
module Descriptor {
  import opened Prelude
  import opened Crypto
  import opened Bip32
  import opened Bip44
  import Text

  // ----- strings -----

  /** The position of the first `ch`. */
  function IndexOf(s: string, ch: char): (r: Option<nat>)
    ensures r.Some? ==> r.value < |s|
  {
    if s == "" then None
    else if s[0] == ch then Some(0)
    else
      var i :- IndexOf(s[1..], ch);
      Some(i + 1)
  }

  /** The pieces between separators. */
  function Split(s: string, sep: char): seq<string>
    decreases |s|
  {
    match IndexOf(s, sep)
    case None => [s]
    case Some(i) => [s[..i]] + Split(s[i + 1..], sep)
  }

  lemma {:induction false} IndexOfFirst(a: string, ch: char, b: string)
    requires ch !in a
    ensures IndexOf(a + [ch] + b, ch) == Some(|a|)
  {
    var s := a + [ch] + b;
    if a != "" {
      IndexOfFirst(a[1..], ch, b);
      assert s[1..] == a[1..] + [ch] + b;
      assert s[0] == a[0];
    }
  }

  lemma {:induction false} IndexOfNone(s: string, ch: char)
    requires ch !in s
    ensures IndexOf(s, ch).None?
  {
    if s != "" {
      IndexOfNone(s[1..], ch);
    }
  }

  lemma SplitFirst(a: string, sep: char, b: string)
    requires sep !in a
    ensures Split(a + [sep] + b, sep) == [a] + Split(b, sep)
  {
    IndexOfFirst(a, sep, b);
    var s := a + [sep] + b;
    assert s[..|a|] == a && s[|a| + 1..] == b;
  }

  // ----- printing -----

  /** The four levels; an absent one cannot be printed. */
  function ParentDerivation(b: Bip44Key): string
    requires b.HasLevels()
  {
    DerivationValue(b.purpose.value) + "/" + DerivationValue(b.coin.value) + "/"
    + DerivationValue(b.account.value) + "/" + DerivationValue(b.change.value)
  }

  /** `GetTaprootParentDescriptorWithoutChecksum` */
  function ParentDescriptor(c: Suite, b: Bip44Key, suffix: string): Option<string> {
    if !b.HasLevels() then None
    else
      var slashed := if suffix != "" && suffix[0] != '/' then "/" + suffix else suffix;
      Some("tr([" + b.fingerprint + "/" + ParentDerivation(b) + "]" + KeyString(c, Neuter(c, b.changeKey))
            + slashed + ")")
  }

  // ----- importing -----

  /**
   `ImportFromTaprootDescriptorForParentWithoutChecksum`. `None` stands for its errors and
   for slices out of range; an unreadable level is dropped without an error.
   */
  function Import(c: Suite, descriptor: string, index: uint32): Option<Bip44Key>
    requires c.n > 0
  {
    var endIndex :- IndexOf(descriptor, ']');
    if !("tr([" <= descriptor) || |descriptor| < 12 || endIndex < 13 || endIndex + 1 > |descriptor| - 1 then None
    else
      var derivations := Split(descriptor[13..endIndex], '/');
      if |derivations| != 4 then None
      else
        FromPieces(c, descriptor[4..12], derivations, descriptor[endIndex + 1..|descriptor| - 1], index)
  }

  /** The key made of the pieces of a descriptor; parse errors of the levels are dropped. */
  function FromPieces(c: Suite, fingerprint: string, derivations: seq<string>, key: string, index: uint32)
    : Option<Bip44Key>
    requires c.n > 0 && |derivations| == 4
  {
    var changeKey :- ParseKey(c, key);
    var indexKey :- Derive(c, changeKey, index);
    Some(Bip44Key(changeKey, indexKey, fingerprint,
                  ParsePath(derivations[0]), ParsePath(derivations[1]),
                  ParsePath(derivations[2]), ParsePath(derivations[3]), index))
  }

  // ----- the round trip -----

  lemma SplitLast(s: string, sep: char)
    requires sep !in s
    ensures Split(s, sep) == [s]
  {
    IndexOfNone(s, sep);
  }

  lemma SplitFour(p: string, q: string, r: string, s: string)
    requires '/' !in p && '/' !in q && '/' !in r && '/' !in s
    ensures Split(p + "/" + q + "/" + r + "/" + s, '/') == [p, q, r, s]
  {
    hide Split, IndexOf;
    var t, u := r + "/" + s, q + "/" + (r + "/" + s);
    SplitLast(s, '/');
    SplitFirst(r, '/', s);
    SplitFirst(q, '/', t);
    SplitFirst(p, '/', u);
    assert p + "/" + q + "/" + r + "/" + s == p + "/" + u;
    assert [p] + ([q] + ([r] + [s])) == [p, q, r, s];
  }

  lemma SplitDerivation(b: Bip44Key)
    requires b.HasLevels()
    ensures Split(ParentDerivation(b), '/')
         == [DerivationValue(b.purpose.value), DerivationValue(b.coin.value),
             DerivationValue(b.account.value), DerivationValue(b.change.value)]
    ensures ']' !in ParentDerivation(b)
  {
    PathItemRoundTrip(b.purpose.value);
    PathItemRoundTrip(b.coin.value);
    PathItemRoundTrip(b.account.value);
    PathItemRoundTrip(b.change.value);
    hide DerivationValue, Split, ParsePath;
    SplitFour(DerivationValue(b.purpose.value), DerivationValue(b.coin.value),
              DerivationValue(b.account.value), DerivationValue(b.change.value));
  }

  /** The pieces of a printed descriptor are where the import looks for them. */
  lemma DescriptorPieces(fingerprint: string, derivation: string, key: string)
    requires |fingerprint| == 8 && ']' !in fingerprint && ']' !in derivation
    ensures
      var s := "tr([" + fingerprint + "/" + derivation + "]" + key + ")";
      && "tr([" <= s && IndexOf(s, ']') == Some(13 + |derivation|) && |s| == 15 + |derivation| + |key|
      && s[4..12] == fingerprint && s[13..13 + |derivation|] == derivation
      && s[13 + |derivation| + 1..|s| - 1] == key
  {
    var head := "tr([" + fingerprint + "/" + derivation;
    var s := "tr([" + fingerprint + "/" + derivation + "]" + key + ")";
    assert s == head + [']'] + (key + ")");
    assert ']' !in "tr([";
    IndexOfFirst(head, ']', key + ")");
  }

  /** The key that importing a printed descriptor at `index` yields. */
  function Imported(c: Suite, b: Bip44Key, index: uint32): Option<Bip44Key>
    requires c.n > 0
  {
    At(c, b.(changeKey := Neuter(c, b.changeKey)), index)
  }

  /**
   Importing what was printed recovers the fingerprint, all four levels and the public
   change key, for arbitrary 32-bit path items; printing again gives the same text.
   */
  lemma DescriptorRoundTrip(c: Suite, b: Bip44Key, index: uint32)
    requires Lawful(c) && b.HasLevels() && Writable(c, Neuter(c, b.changeKey))
    requires |b.fingerprint| == 8 && ']' !in b.fingerprint
    ensures ParentDescriptor(c, b, "").Some?
    ensures Import(c, ParentDescriptor(c, b, "").value, index) == Imported(c, b, index)
    ensures Imported(c, b, index).Some?
        ==> ParentDescriptor(c, Imported(c, b, index).value, "") == ParentDescriptor(c, b, "")
  {
    var key := KeyString(c, Neuter(c, b.changeKey));
    var s := "tr([" + b.fingerprint + "/" + ParentDerivation(b) + "]" + key + ")";
    PrintedPlainly(c, b);
    ImportsBack(c, b, index, s);
    hide Lawful, Derive, ParentDescriptor, KeyString, Import, Writable;
    if Imported(c, b, index).Some? {
      PrintedPlainly(c, Imported(c, b, index).value);
      assert Neuter(c, Neuter(c, b.changeKey)) == Neuter(c, b.changeKey);
    }
  }

  lemma PrintedPlainly(c: Suite, b: Bip44Key)
    requires b.HasLevels()
    ensures ParentDescriptor(c, b, "")
         == Some("tr([" + b.fingerprint + "/" + ParentDerivation(b) + "]" + KeyString(c, Neuter(c, b.changeKey)) + ")")
  {
    var head := "tr([" + b.fingerprint + "/" + ParentDerivation(b) + "]" + KeyString(c, Neuter(c, b.changeKey));
    hide ParentDerivation, KeyString;
    assert head + "" == head;
  }

  /** A suffix is printed behind the key, with a slash in front when it has none. */
  lemma SuffixIsSlashed(c: Suite, b: Bip44Key, suffix: string)
    requires b.HasLevels() && suffix != ""
    ensures
      ParentDescriptor(c, b, suffix)
      == Some("tr([" + b.fingerprint + "/" + ParentDerivation(b) + "]" + KeyString(c, Neuter(c, b.changeKey))
              + (if suffix[0] == '/' then "" else "/") + suffix + ")")
  {
    var head := "tr([" + b.fingerprint + "/" + ParentDerivation(b) + "]" + KeyString(c, Neuter(c, b.changeKey));
    hide ParentDerivation, KeyString;
    if suffix[0] == '/' {
      assert head + "" + suffix == head + suffix;
    } else {
      assert head + "/" + suffix == head + ("/" + suffix);
    }
  }

  /** The levels of the wallet's keys, printed. */
  lemma WalletLevels(c: Suite, master: ExtKey, startIndex: uint32)
    requires c.n > 0 && GetBip44Key(c, master, startIndex).Some?
    ensures GetBip44Key(c, master, startIndex).value.HasLevels()
    ensures ParentDerivation(GetBip44Key(c, master, startIndex).value) == "44'/0'/0'/0"
  {
    PrintedItems();
    hide Derive, DerivationValue, Fingerprint, Text.HexEncode;
    assert "44'" + "/" + "0'" + "/" + "0'" + "/" + "0" == "44'/0'/0'/0";
  }

  lemma PrintedItems()
    ensures DerivationValue(PathHardened(44)) == "44'" && DerivationValue(PathHardened(0)) == "0'"
    ensures DerivationValue(Path(0)) == "0"
  {
  }

  lemma ImportPieces(c: Suite, fingerprint: string, derivation: string, key: string, index: uint32)
    requires c.n > 0 && |fingerprint| == 8 && ']' !in fingerprint && ']' !in derivation
    requires |Split(derivation, '/')| == 4
    ensures Import(c, "tr([" + fingerprint + "/" + derivation + "]" + key + ")", index)
         == FromPieces(c, fingerprint, Split(derivation, '/'), key, index)
  {
    DescriptorPieces(fingerprint, derivation, key);
    hide IndexOf, Split, ParseKey, Derive, ParsePath;
  }

  lemma ImportsBack(c: Suite, b: Bip44Key, index: uint32, s: string)
    requires Lawful(c) && b.HasLevels() && Writable(c, Neuter(c, b.changeKey))
    requires |b.fingerprint| == 8 && ']' !in b.fingerprint
    requires s == "tr([" + b.fingerprint + "/" + ParentDerivation(b) + "]" + KeyString(c, Neuter(c, b.changeKey)) + ")"
    ensures Import(c, s, index) == Imported(c, b, index)
  {
    assert c.n > 2;
    var key := KeyString(c, Neuter(c, b.changeKey));
    KeyStringRoundTrip(c, Neuter(c, b.changeKey));
    SplitDerivation(b);
    PathItemRoundTrip(b.purpose.value);
    PathItemRoundTrip(b.coin.value);
    PathItemRoundTrip(b.account.value);
    PathItemRoundTrip(b.change.value);
    hide Lawful, Derive, ParentDerivation, DerivationValue, ParsePath, IndexOf, Split, KeyString, ParseKey,
         Neuter, Writable, Import;
    ImportPieces(c, b.fingerprint, ParentDerivation(b), key, index);
  }

  // ----- what is accepted -----

  lemma {:induction false} IndexOfFinds(s: string, ch: char)
    ensures match IndexOf(s, ch)
      case None => ch !in s
      case Some(i) => s[i] == ch && ch !in s[..i] && s == s[..i] + [ch] + s[i + 1..]
  {
    if s != "" {
      IndexOfFinds(s[1..], ch);
      assert s == [s[0]] + s[1..];
      if s[0] != ch && IndexOf(s[1..], ch).Some? {
        var i := IndexOf(s[1..], ch).value;
        assert s[..i + 1] == [s[0]] + s[1..][..i];
      }
    }
  }

  /** One separator splits a text in two, and the rest is split further. */
  lemma SplitOnce(s: string, sep: char)
    requires |Split(s, sep)| > 1
    ensures var i := IndexOf(s, sep);
      && i.Some? && sep !in s[..i.value] && s == s[..i.value] + [sep] + s[i.value + 1..]
      && Split(s, sep) == [s[..i.value]] + Split(s[i.value + 1..], sep)
  {
    IndexOfFinds(s, sep);
    hide IndexOf;
  }

  lemma SplitAlone(s: string, sep: char)
    requires |Split(s, sep)| == 1
    ensures sep !in s && Split(s, sep) == [s]
  {
    IndexOfFinds(s, sep);
    hide IndexOf;
    if IndexOf(s, sep).Some? {
      SplitSome(s[IndexOf(s, sep).value + 1..], sep);
    }
  }

  lemma SplitSome(s: string, sep: char)
    ensures Split(s, sep) != []
  {
    hide IndexOf;
  }

  /** Four pieces are four texts without a separator, joined by separators. */
  lemma SplitFourIff(s: string, pieces: seq<string>)
    requires |pieces| == 4
    ensures Split(s, '/') == pieces
       <==> && (forall i :: 0 <= i < 4 ==> '/' !in pieces[i])
            && s == pieces[0] + "/" + pieces[1] + "/" + pieces[2] + "/" + pieces[3]
  {
    hide IndexOf, Split;
    if forall i :: 0 <= i < 4 ==> '/' !in pieces[i] {
      SplitFour(pieces[0], pieces[1], pieces[2], pieces[3]);
      assert pieces == [pieces[0], pieces[1], pieces[2], pieces[3]];
    }
    if Split(s, '/') == pieces {
      FourPieces(s);
    }
  }

  lemma SplitHead(s: string) returns (rest: string)
    requires |Split(s, '/')| > 1
    ensures '/' !in Split(s, '/')[0] && s == Split(s, '/')[0] + "/" + rest && Split(rest, '/') == Split(s, '/')[1..]
  {
    SplitOnce(s, '/');
    rest := s[IndexOf(s, '/').value + 1..];
    hide IndexOf, Split;
    assert ([Split(s, '/')[0]] + Split(rest, '/'))[1..] == Split(rest, '/');
  }

  lemma FourPieces(s: string)
    requires |Split(s, '/')| == 4
    ensures var p := Split(s, '/');
      && (forall i :: 0 <= i < 4 ==> '/' !in p[i])
      && s == p[0] + "/" + p[1] + "/" + p[2] + "/" + p[3]
  {
    hide *;
    var p := Split(s, '/');
    var t := SplitHead(s);
    var u := SplitHead(t);
    var v := SplitHead(u);
    SplitAlone(v, '/');
    assert Split(v, '/')[0] == p[3] && Split(u, '/')[0] == p[2] && Split(t, '/')[0] == p[1];
    JoinFour(p[0], p[1], p[2], p[3]);
  }

  lemma JoinFour(p: string, q: string, r: string, s: string)
    ensures p + "/" + (q + "/" + (r + "/" + s)) == p + "/" + q + "/" + r + "/" + s
  {
  }

  /** A fingerprint of eight characters, any character, four levels, a bracket, a key, and any last character. */
  predicate Shape(d: string, fingerprint: string, sep: char, levels: seq<string>, key: string, last: char) {
    && |fingerprint| == 8 && |levels| == 4 && (forall i :: 0 <= i < 4 ==> '/' !in levels[i])
    && var head := "tr([" + fingerprint + [sep] + (levels[0] + "/" + levels[1] + "/" + levels[2] + "/" + levels[3]);
       ']' !in head && d == head + [']'] + (key + [last])
  }

  /** The key that the pieces give. */
  predicate Pieced(c: Suite, b: Bip44Key, levels: seq<string>, key: string, index: uint32)
    requires c.n > 0 && |levels| == 4
  {
    && ParseKey(c, key) == Some(b.changeKey) && Derive(c, b.changeKey, index) == Some(b.indexKey) && b.index == index
    && b.purpose == ParsePath(levels[0]) && b.coin == ParsePath(levels[1])
    && b.account == ParsePath(levels[2]) && b.change == ParsePath(levels[3])
  }

  lemma PiecesIff(c: Suite, fingerprint: string, levels: seq<string>, key: string, index: uint32, b: Bip44Key)
    requires c.n > 0 && |levels| == 4
    ensures FromPieces(c, fingerprint, levels, key, index) == Some(b)
       <==> b.fingerprint == fingerprint && Pieced(c, b, levels, key, index)
  {
    hide ParseKey, Derive, ParsePath;
  }

  lemma Cut(fingerprint: string, sep: char, l: string, key: string, last: char)
    requires |fingerprint| == 8
    ensures
      var head := "tr([" + fingerprint + [sep] + l;
      var d := head + [']'] + (key + [last]);
      && |head| == 13 + |l| && |d| == 15 + |l| + |key| && "tr([" <= d
      && d[4..12] == fingerprint && d[13..|head|] == l && d[|head| + 1..|d| - 1] == key
  {
  }

  /** The import, where the bracket is known and the levels are four. */
  lemma ImportAt(c: Suite, d: string, end: nat, levels: seq<string>, index: uint32)
    requires c.n > 0 && IndexOf(d, ']') == Some(end) && "tr([" <= d && 13 <= end < |d| - 1
    requires |levels| == 4 && Split(d[13..end], '/') == levels
    ensures Import(c, d, index) == FromPieces(c, d[4..12], levels, d[end + 1..|d| - 1], index)
  {
    hide IndexOf, Split, FromPieces;
  }

  lemma ShapedImports(c: Suite, d: string, fingerprint: string, sep: char, levels: seq<string>, key: string,
                      last: char, index: uint32)
    requires c.n > 0 && Shape(d, fingerprint, sep, levels, key, last)
    ensures Import(c, d, index) == FromPieces(c, fingerprint, levels, key, index)
  {
    hide IndexOf, Split, FromPieces, Import;
    var l := levels[0] + "/" + levels[1] + "/" + levels[2] + "/" + levels[3];
    IndexOfFirst("tr([" + fingerprint + [sep] + l, ']', key + [last]);
    SplitFourIff(l, levels);
    Cut(fingerprint, sep, l, key, last);
    ImportAt(c, d, 13 + |l|, levels, index);
  }

  lemma Uncut(d: string, end: nat)
    requires "tr([" <= d && 13 <= end < |d| - 1 && d[end] == ']'
    ensures d[..end] == "tr([" + d[4..12] + [d[12]] + d[13..end]
    ensures d == d[..end] + [']'] + (d[end + 1..|d| - 1] + [d[|d| - 1]])
  {
    assert d[..4] == "tr([";
    assert d[..end] == d[..4] + d[4..12] + [d[12]] + d[13..end];
  }

  lemma ImportNeeds(c: Suite, d: string, index: uint32)
    requires c.n > 0 && Import(c, d, index).Some?
    ensures IndexOf(d, ']').Some?
    ensures var end := IndexOf(d, ']').value;
      && "tr([" <= d && 13 <= end < |d| - 1 && d[end] == ']' && ']' !in d[..end]
      && |Split(d[13..end], '/')| == 4 && Import(c, d, index).value.fingerprint == d[4..12]
  {
    IndexOfFinds(d, ']');
    hide IndexOf, Split, ParseKey, Derive, ParsePath;
  }

  lemma ImportedShape(c: Suite, d: string, index: uint32)
    returns (sep: char, levels: seq<string>, key: string, last: char)
    requires c.n > 0 && Import(c, d, index).Some?
    ensures Shape(d, Import(c, d, index).value.fingerprint, sep, levels, key, last)
  {
    hide IndexOf, Split, Import;
    ImportNeeds(c, d, index);
    var end := IndexOf(d, ']').value;
    Uncut(d, end);
    levels := Split(d[13..end], '/');
    SplitFourIff(d[13..end], levels);
    sep, key, last := d[12], d[end + 1..|d| - 1], d[|d| - 1];
  }

  lemma PiecedImports(c: Suite, d: string, sep: char, levels: seq<string>, key: string, last: char,
                      index: uint32, b: Bip44Key)
    requires c.n > 0 && Shape(d, b.fingerprint, sep, levels, key, last) && Pieced(c, b, levels, key, index)
    ensures Import(c, d, index) == Some(b)
  {
    assert |levels| == 4;
    hide *;
    ShapedImports(c, d, b.fingerprint, sep, levels, key, last, index);
    PiecesIff(c, b.fingerprint, levels, key, index, b);
  }

  lemma ImportIsPieced(c: Suite, d: string, index: uint32)
    returns (sep: char, levels: seq<string>, key: string, last: char)
    requires c.n > 0 && Import(c, d, index).Some?
    ensures var b := Import(c, d, index).value;
      Shape(d, b.fingerprint, sep, levels, key, last) && Pieced(c, b, levels, key, index)
  {
    hide Import, FromPieces, Pieced;
    sep, levels, key, last := ImportedShape(c, d, index);
    var b := Import(c, d, index).value;
    ShapedImports(c, d, b.fingerprint, sep, levels, key, last, index);
    PiecesIff(c, b.fingerprint, levels, key, index, b);
  }

  /** What is imported, exactly: texts of that shape whose key can be read and derived; levels may be anything. */
  lemma ImportIff(c: Suite, d: string, index: uint32, b: Bip44Key)
    requires c.n > 0
    ensures Import(c, d, index) == Some(b)
       <==> exists sep, levels, key, last ::
              Shape(d, b.fingerprint, sep, levels, key, last) && Pieced(c, b, levels, key, index)
  {
    hide Import, ParseKey, Derive, ParsePath;
    if Import(c, d, index).Some? {
      var sep, levels, key, last := ImportIsPieced(c, d, index);
    }
    if sep, levels, key, last :|
      Shape(d, b.fingerprint, sep, levels, key, last) && Pieced(c, b, levels, key, index)
    {
      PiecedImports(c, d, sep, levels, key, last, index, b);
    }
  }

  // ----- what malformed levels do -----

  /**
   A level that is no number is accepted silently. The key it leaves behind cannot be walked,
   whatever the keys are, and a key can be printed exactly when all its levels were numbers.
   */
  lemma UnreadableLevelFailsLater(c: Suite, descriptor: string, index: uint32)
    requires c.n > 0 && Import(c, descriptor, index).Some?
    ensures
      var b := Import(c, descriptor, index).value;
      var levels := Split(descriptor[13..IndexOf(descriptor, ']').value], '/');
      && |levels| == 4
      && (b.HasLevels() <==> forall i :: 0 <= i < |levels| ==> ParsePath(levels[i]).Some?)
      && (!b.HasLevels() ==> DeriveNextSibling(c, b).None?)
      && (b.HasLevels() <==> ParentDescriptor(c, b, "").Some?)
  {
    hide Derive, ParsePath, ParseKey, Split, IndexOf;
    var b := Import(c, descriptor, index).value;
    var levels := Split(descriptor[13..IndexOf(descriptor, ']').value], '/');
    assert b.purpose == ParsePath(levels[0]) && b.coin == ParsePath(levels[1]);
    assert b.account == ParsePath(levels[2]) && b.change == ParsePath(levels[3]);
  }
}
