/** pkg/autohealer/manager.go: the etcd keys of clouds, name resolvers and healers, derived from each other. */
module HealerKeys {
  import opened Clusters

  const RESOLVERS := "/nresolvers"
  const HEALERS := "/healers"

  predicate NoSlash(text: string) {
    forall i | 0 <= i < |text| :: text[i] != '/'
  }

  /** strings.Split at slashes. */
  function Split(text: string): (parts: seq<string>)
    ensures |parts| > 0
  {
    if text == "" then [""]
    else
      var rest := Split(text[1..]);
      if text[0] == '/' then [""] + rest else [[text[0]] + rest[0]] + rest[1..]
  }

  /** strings.ReplaceAll. */
  function ReplaceAll(text: string, part: string, sub: string): string
    requires part != ""
  {
    if text == "" then ""
    else if part <= text then sub + ReplaceAll(text[|part|..], part, sub)
    else [text[0]] + ReplaceAll(text[1..], part, sub)
  }

  function Key(prefix: string, id: string, hash: string): string {
    Path([prefix, id, hash])
  }

  lemma KeyIs(prefix: string, id: string, hash: string)
    ensures Key(prefix, id, hash) == prefix + "/" + (id + "/" + hash)
  {
    assert Path([id, hash]) == id + "/" + hash by {
      assert Path([hash]) == hash;
      assert [id, hash][1..] == [hash];
    }
    assert [prefix, id, hash][1..] == [id, hash];
  }

  lemma {:induction false} SplitAtSlash(part: string, rest: string)
    requires NoSlash(part)
    ensures Split(part) == [part] && Split(part + "/" + rest) == [part] + Split(rest)
  {
    var text := part + "/" + rest;
    if part == "" {
      assert text[1..] == rest;
    } else {
      SplitAtSlash(part[1..], rest);
      assert text[1..] == part[1..] + "/" + rest;
      assert [part[0]] + part[1..] == part;
    }
  }

  /** From the key of a cloud, and from that of a worker, the manager gets back the cloud's ID. */
  lemma KeyRoundTrip(prefix: string, id: string, hash: string)
    requires NoSlash(prefix) && NoSlash(id) && NoSlash(hash)
    ensures Split(Key("/" + prefix, id, hash)) == ["", prefix, id, hash]
    ensures Split(Path(["/" + prefix, id])) == ["", prefix, id]
  {
    KeyIs("/" + prefix, id, hash);
    assert ["/" + prefix, id][1..] == [id] && Path([id]) == id;
    var tail := prefix + "/" + (id + "/" + hash);
    assert Key("/" + prefix, id, hash) == "" + "/" + tail;
    assert Path(["/" + prefix, id]) == "" + "/" + (prefix + "/" + id);
    SplitAtSlash("", tail);
    SplitAtSlash("", prefix + "/" + id);
    SplitAtSlash(prefix, id + "/" + hash);
    SplitAtSlash(prefix, id);
    SplitAtSlash(id, hash);
    SplitAtSlash(hash, "");
  }

  lemma {:induction false} ReplaceSkips(bare: string, rest: string, part: string, sub: string)
    requires NoSlash(bare) && part != "" && part[0] == '/'
    ensures ReplaceAll(bare + rest, part, sub) == bare + ReplaceAll(rest, part, sub)
  {
    var text := bare + rest;
    if bare == "" {
      assert text == rest;
    } else {
      ReplaceSkips(bare[1..], rest, part, sub);
      assert text[1..] == bare[1..] + rest;
      assert text[0] == bare[0];
    }
  }

  lemma ReplaceHere(bare: string, rest: string, name: string, sub: string)
    requires NoSlash(bare) && name <= bare
    ensures ReplaceAll("/" + bare + rest, "/" + name, sub) ==
            sub + bare[|name|..] + ReplaceAll(rest, "/" + name, sub)
  {
    var part, tail := "/" + name, bare[|name|..] + rest;
    assert bare == name + bare[|name|..];
    assert "/" + bare + rest == part + tail;
    ReplaceSkips(bare[|name|..], rest, part, sub);
    ReplaceFirst(part, tail, sub);
  }

  lemma ReplaceFirst(part: string, tail: string, sub: string)
    requires part != ""
    ensures ReplaceAll(part + tail, part, sub) == sub + ReplaceAll(tail, part, sub)
  {
    assert (part + tail)[|part|..] == tail;
  }

  lemma ReplaceNotHere(bare: string, rest: string, name: string, sub: string)
    requires NoSlash(bare) && NoSlash(name) && !(name <= bare) && (rest == "" || rest[0] == '/')
    ensures ReplaceAll("/" + bare + rest, "/" + name, sub) == "/" + bare + ReplaceAll(rest, "/" + name, sub)
  {
    var text, part := "/" + bare + rest, "/" + name;
    if name <= bare + rest {
      PrefixStaysWithin(name, bare, rest);
    } else {
      assert text[1..] == bare + rest;
      ReplaceSkips(bare, rest, part, sub);
    }
  }

  /** What replacing makes of a slash that a bare name follows, and then a slash or nothing. */
  lemma ReplaceAtSlash(bare: string, rest: string, name: string, sub: string)
    requires NoSlash(bare) && NoSlash(name) && (rest == "" || rest[0] == '/')
    ensures ReplaceAll("/" + bare + rest, "/" + name, sub) ==
            (if name <= bare then sub + bare[|name|..] else "/" + bare) + ReplaceAll(rest, "/" + name, sub)
  {
    if name <= bare {
      ReplaceHere(bare, rest, name, sub);
    } else {
      ReplaceNotHere(bare, rest, name, sub);
    }
  }

  lemma {:induction false} PrefixStaysWithin(name: string, bare: string, rest: string)
    requires NoSlash(name) && (rest == "" || rest[0] == '/') && name <= bare + rest
    ensures name <= bare
  {
    var text := bare + rest;
    assert bare == "" ==> text == rest;
    assert name != "" ==> name[0] == text[0];
    if name != "" && bare != "" {
      assert text[1..] == bare[1..] + rest;
      PrefixStaysWithin(name[1..], bare[1..], rest);
    }
  }

  /** The healer's key is got from the name resolver's by replacing the prefix wherever it stands. That is the
      key the healer is stored under exactly when neither the cloud's ID nor its hash begins like the prefix. */
  lemma DerivedKeyExactly(id: string, hash: string)
    requires NoSlash(id) && NoSlash(hash)
    ensures ReplaceAll(Key(RESOLVERS, id, hash), RESOLVERS, HEALERS) == Key(HEALERS, id, hash)
            <==> !("nresolvers" <= id) && !("nresolvers" <= hash)
  {
    var name := "nresolvers";
    KeyIs(RESOLVERS, id, hash);
    KeyIs(HEALERS, id, hash);
    var tail := "/" + id + ("/" + hash);
    assert Key(RESOLVERS, id, hash) == "/" + name + tail;
    assert Key(HEALERS, id, hash) == HEALERS + tail;
    assert RESOLVERS == "/" + name && "/" + hash == "/" + hash + "";
    ReplaceAtSlash(name, tail, name, HEALERS);
    ReplaceAtSlash(id, "/" + hash, name, HEALERS);
    ReplaceAtSlash(hash, "", name, HEALERS);
  }

  /** Keys are deleted with everything they are a beginning of: of the keys of one kind, only themselves. */
  lemma DeleteTakesOne(prefix: string, id: string, id': string, hash: string -> string)
    requires NoSlash(id) && NoSlash(id')
    requires Key(prefix, id, hash(id)) <= Key(prefix, id', hash(id'))
    ensures id == id'
  {
    KeyIs(prefix, id, hash(id));
    KeyIs(prefix, id', hash(id'));
    var n := |prefix| + 1;
    assert Key(prefix, id, hash(id))[n..] == id + "/" + hash(id);
    assert Key(prefix, id', hash(id'))[n..] == id' + "/" + hash(id');
    FirstPartAgrees(id, hash(id), id', hash(id'));
  }

  lemma {:induction false} FirstPartAgrees(part: string, rest: string, part': string, rest': string)
    requires NoSlash(part) && NoSlash(part') && part + "/" + rest <= part' + "/" + rest'
    ensures part == part'
  {
    var text, text' := part + "/" + rest, part' + "/" + rest';
    assert text[0] == text'[0];
    if part != "" && part' != "" {
      assert text[1..] == part[1..] + "/" + rest && text'[1..] == part'[1..] + "/" + rest';
      FirstPartAgrees(part[1..], rest, part'[1..], rest');
    }
  }
}
