/** Parsing a provider's response into temporary image files. Whatever the decoder, the network
    or the file system answers, a failed call leaves no file behind, and a successful one exactly
    the files of the images it returns. */
module ResponseStream {
  import opened Luck
  import opened Wrappers

  type Path = nat

  type Bytes = seq<bv8>

  /** A body to be copied: its bytes, and whether it breaks off after them. */
  datatype Body = Body(bytes: Bytes, broken: bool)

  datatype Fetched = Unreachable | Answered(status: int, contentLength: int, body: Body, contentType: string)

  /** One item of the response's data array, with what decoding or fetching it yields. Blank
      fields are absent. */
  datatype Item = Item(mime: Option<string>, base64: Option<Body>, url: Option<Fetched>)

  datatype Image = Image(path: Path, size: nat, mime: string, index: nat, fromUrl: bool)

  datatype Token = Delim(c: char) | Name(name: string) | Literal

  /** What the JSON decoder may answer when asked for a token or for a value. */
  datatype TokenAnswer = Next(token: Token) | EndOfInput | BadToken

  datatype ValueAnswer = Decoded(item: Item) | OtherValue | BadValue

  /** The decoder's answers to come; when they are used up, the input has ended. */
  datatype Script = Script(tokens: seq<TokenAnswer>, mores: seq<bool>, values: seq<ValueAnswer>)
  {
    function Token(): TokenAnswer {
      if tokens == [] then EndOfInput else tokens[0]
    }

    function AfterToken(): Script {
      if tokens == [] then this else this.(tokens := tokens[1..])
    }

    function More(): bool {
      mores != [] && mores[0]
    }

    function AfterMore(): Script {
      if mores == [] then this else this.(mores := mores[1..])
    }

    function Value(): ValueAnswer {
      if values == [] then BadValue else values[0]
    }

    function AfterValue(): Script {
      if values == [] then this else this.(values := values[1..])
    }
  }

  // ---------------------------------------------------------------------------------------
  // What a response says, read without touching a file.

  predicate UsableBody(body: Body, limit: nat) {
    !body.broken && 0 < |body.bytes| <= limit
  }

  predicate UsableAnswer(answer: Fetched, limit: nat) {
    answer.Answered? && 200 <= answer.status < 300 && answer.contentLength <= limit && UsableBody(answer.body, limit)
  }

  predicate UsableItem(item: Item, limit: nat) {
    if item.base64.Some? then UsableBody(item.base64.value, limit)
    else item.url.Some? && UsableAnswer(item.url.value, limit)
  }

  datatype Reading<+T> = Reading(value: T, rest: Script)

  /** The items up to the end of an array, each of them usable. */
  function ReadItems(more: bool, s: Script, limit: nat): (r: Option<Reading<seq<Item>>>)
    ensures r.Some? ==> |r.value.rest.mores| <= |s.mores|
    decreases |s.mores| + if more then 1 else 0
  {
    if !more then Some(Reading([], s))
    else if !s.Value().Decoded? || !UsableItem(s.Value().item, limit) then None
    else
      var t := s.AfterValue();
      match ReadItems(t.More(), t.AfterMore(), limit)
      case None => None
      case Some(r) => Some(Reading([s.Value().item] + r.value, r.rest))
  }

  function ReadArray(s: Script, limit: nat): (r: Option<Reading<seq<Item>>>)
    ensures r.Some? ==> |r.value.rest.mores| <= |s.mores|
  {
    if s.Token() != Next(Delim('[')) then None
    else
      var t := s.AfterToken();
      match ReadItems(t.More(), t.AfterMore(), limit)
      case None => None
      case Some(r) => if r.rest.Token().Next? then Some(Reading(r.value, r.rest.AfterToken())) else None
  }

  /** One field: its array if it is data, nothing if it is another one. */
  function ReadField(s: Script, limit: nat): (r: Option<Reading<seq<seq<Item>>>>)
    ensures r.Some? ==> |r.value.rest.mores| <= |s.mores|
  {
    if !s.Token().Next? || !s.Token().token.Name? then None
    else if s.Token().token.name != "data" then
      if s.AfterToken().Value() == BadValue then None else Some(Reading([], s.AfterToken().AfterValue()))
    else
      match ReadArray(s.AfterToken(), limit)
      case None => None
      case Some(a) => Some(Reading([a.value], a.rest))
  }

  /** The data arrays among the fields up to the end of the object. */
  function ReadFields(more: bool, s: Script, limit: nat): Option<Reading<seq<seq<Item>>>>
    decreases |s.mores| + if more then 1 else 0
  {
    if !more then Some(Reading([], s))
    else
      match ReadField(s, limit)
      case None => None
      case Some(f) =>
        match ReadFields(f.rest.More(), f.rest.AfterMore(), limit)
        case None => None
        case Some(r) => Some(Reading(f.value + r.value, r.rest))
  }

  /** An object with at least one usable image in its data, and nothing behind it. */
  function ReadResponse(s: Script, limit: nat): Option<seq<seq<Item>>> {
    if s.Token() != Next(Delim('{')) then None
    else
      var t := s.AfterToken();
      match ReadFields(t.More(), t.AfterMore(), limit)
      case None => None
      case Some(r) =>
        if r.rest.Token().Next? && r.rest.AfterToken().Token() == EndOfInput && Expected(r.value) != []
          then Some(r.value) else None
  }

  /** The images to expect: each item with its index in its own array. */
  function Numbered(items: seq<Item>): (r: seq<(nat, Item)>)
    ensures |r| == |items|
  {
    if items == [] then [] else Numbered(items[..|items| - 1]) + [(|items| - 1, items[|items| - 1])]
  }

  function Expected(arrays: seq<seq<Item>>): seq<(nat, Item)> {
    if arrays == [] then [] else Expected(arrays[..|arrays| - 1]) + Numbered(arrays[|arrays| - 1])
  }

  /** The reading of what comes first, put in front of the reading of the rest. */
  function Behind<T>(first: seq<T>, r: Option<Reading<seq<T>>>): Option<Reading<seq<T>>> {
    match r
    case None => None
    case Some(x) => Some(Reading(first + x.value, x.rest))
  }

  lemma BehindBoth<T>(first: seq<T>, second: seq<T>, r: Option<Reading<seq<T>>>)
    ensures Behind(first, Behind(second, r)) == Behind(first + second, r)
    ensures Behind([], r) == r
  {
    if r.Some? {
      assert first + (second + r.value.value) == first + second + r.value.value;
      assert [] + r.value.value == r.value.value;
    }
  }

  lemma BehindNothing<T>(first: seq<T>, s: Script)
    ensures Behind(first, Some(Reading([], s))) == Some(Reading(first, s))
  {
    assert first + [] == first;
  }

  /** Taking one more item, or one more field, moves it from the reading of the rest to what has
      been read. */
  lemma {:induction false} ItemTaken(s: Script, items: seq<Item>, limit: nat)
    requires s.Value().Decoded? && UsableItem(s.Value().item, limit)
    ensures var t := s.AfterValue();
      Behind(items, ReadItems(true, s, limit))
        == Behind(items + [s.Value().item], ReadItems(t.More(), t.AfterMore(), limit))
  {
    BehindBoth(items, [s.Value().item], ReadItems(s.AfterValue().More(), s.AfterValue().AfterMore(), limit));
  }

  lemma {:induction false} FieldTaken(s: Script, arrays: seq<seq<Item>>, limit: nat)
    requires ReadField(s, limit).Some?
    ensures var f := ReadField(s, limit).value;
      Behind(arrays, ReadFields(true, s, limit))
        == Behind(arrays + f.value, ReadFields(f.rest.More(), f.rest.AfterMore(), limit))
  {
    var f := ReadField(s, limit).value;
    BehindBoth(arrays, f.value, ReadFields(f.rest.More(), f.rest.AfterMore(), limit));
  }

  // ---------------------------------------------------------------------------------------
  // Responses as a provider writes them, and how they are read.

  /** A field of the response object: the data, or another one, whose value the decoder takes. */
  datatype Field = Data(items: seq<Item>) | Other(name: string, value: ValueAnswer)

  /** One script after the other. */
  function Then(a: Script, b: Script): Script {
    Script(a.tokens + b.tokens, a.mores + b.mores, a.values + b.values)
  }

  /** The decoder's answers for an array's items and the end of the array. */
  function ItemsScript(items: seq<Item>): Script {
    if items == [] then Script([], [false], [])
    else Then(Script([], [true], [Decoded(items[0])]), ItemsScript(items[1..]))
  }

  function FieldScript(f: Field): Script {
    match f
    case Data(items) =>
      Then(Script([Next(Name("data")), Next(Delim('['))], [], []),
        Then(ItemsScript(items), Script([Next(Delim(']'))], [], [])))
    case Other(name, value) => Script([Next(Name(name))], [], [value])
  }

  function FieldsScript(fields: seq<Field>): Script {
    if fields == [] then Script([], [false], [])
    else Then(Script([], [true], []), Then(FieldScript(fields[0]), FieldsScript(fields[1..])))
  }

  /** The whole object, and behind it nothing. */
  function ResponseScript(fields: seq<Field>): Script {
    Then(Script([Next(Delim('{'))], [], []), Then(FieldsScript(fields), Script([Next(Delim('}'))], [], [])))
  }

  predicate WellFormed(f: Field) {
    f.Other? ==> f.name != "data" && f.value != BadValue
  }

  /** The items a provider has put into its data, and whether all of them can be used. */
  function DataOf(fields: seq<Field>): seq<seq<Item>> {
    if fields == [] then [] else (if fields[0].Data? then [fields[0].items] else []) + DataOf(fields[1..])
  }

  predicate AllUsable(items: seq<Item>, limit: nat) {
    forall i :: 0 <= i < |items| ==> UsableItem(items[i], limit)
  }

  predicate FieldUsable(f: Field, limit: nat) {
    f.Data? ==> AllUsable(f.items, limit)
  }

  predicate FieldsUsable(fields: seq<Field>, limit: nat) {
    forall i :: 0 <= i < |fields| ==> FieldUsable(fields[i], limit)
  }

  predicate AllWellFormed(fields: seq<Field>) {
    forall i :: 0 <= i < |fields| ==> WellFormed(fields[i])
  }

  lemma FirstField(fields: seq<Field>, limit: nat)
    requires fields != []
    ensures FieldsUsable(fields, limit) <==> FieldUsable(fields[0], limit) && FieldsUsable(fields[1..], limit)
    ensures AllWellFormed(fields) <==> WellFormed(fields[0]) && AllWellFormed(fields[1..])
  {
    assert fields == [fields[0]] + fields[1..];
  }

  lemma ThenIsAssociative(a: Script, b: Script, c: Script)
    ensures Then(Then(a, b), c) == Then(a, Then(b, c))
  {
    assert a.tokens + b.tokens + c.tokens == a.tokens + (b.tokens + c.tokens);
    assert a.mores + b.mores + c.mores == a.mores + (b.mores + c.mores);
    assert a.values + b.values + c.values == a.values + (b.values + c.values);
  }

  lemma FirstAnswers(rest: Script)
    ensures forall t ::
      Then(Script([t], [], []), rest).Token() == t && Then(Script([t], [], []), rest).AfterToken() == rest
    ensures forall m ::
      Then(Script([], [m], []), rest).More() == m && Then(Script([], [m], []), rest).AfterMore() == rest
    ensures forall v ::
      Then(Script([], [], [v]), rest).Value() == v && Then(Script([], [], [v]), rest).AfterValue() == rest
  {
    assert [] + rest.tokens == rest.tokens && [] + rest.mores == rest.mores && [] + rest.values == rest.values;
  }

  lemma {:induction false} ItemsAreRead(items: seq<Item>, rest: Script, limit: nat)
    ensures var s := Then(ItemsScript(items), rest);
      ReadItems(s.More(), s.AfterMore(), limit)
        == if AllUsable(items, limit) then Some(Reading(items, rest)) else None
  {
    var s := Then(ItemsScript(items), rest);
    if items == [] {
      FirstAnswers(rest);
    } else {
      var later := Then(ItemsScript(items[1..]), rest);
      var value := Then(Script([], [], [Decoded(items[0])]), later);
      FirstAnswers(value);
      FirstAnswers(later);
      ItemsAreRead(items[1..], rest, limit);
      FirstItem(items, rest, limit);
      assert s.More() && s.AfterMore() == value;
    }
  }

  lemma {:induction false} FirstItem(items: seq<Item>, rest: Script, limit: nat)
    requires items != []
    ensures Then(ItemsScript(items), rest)
      == Then(Script([], [true], []), Then(Script([], [], [Decoded(items[0])]), Then(ItemsScript(items[1..]), rest)))
    ensures AllUsable(items, limit) <==> UsableItem(items[0], limit) && AllUsable(items[1..], limit)
    ensures items == [items[0]] + items[1..]
  {
    var later := Then(ItemsScript(items[1..]), rest);
    ThenIsAssociative(Script([], [true], [Decoded(items[0])]), ItemsScript(items[1..]), rest);
    assert Script([], [true], [Decoded(items[0])])
      == Then(Script([], [true], []), Script([], [], [Decoded(items[0])]));
    ThenIsAssociative(Script([], [true], []), Script([], [], [Decoded(items[0])]), later);
  }

  lemma {:induction false} DataFieldScript(items: seq<Item>, rest: Script)
    ensures Then(FieldScript(Data(items)), rest) ==
      Then(Script([Next(Name("data"))], [], []), Then(Script([Next(Delim('['))], [], []),
        Then(ItemsScript(items), Then(Script([Next(Delim(']'))], [], []), rest))))
  {
    var name, start := Script([Next(Name("data"))], [], []), Script([Next(Delim('['))], [], []);
    var inner, end := ItemsScript(items), Script([Next(Delim(']'))], [], []);
    assert Script([Next(Name("data")), Next(Delim('['))], [], []) == Then(name, start);
    ThenIsAssociative(Then(name, start), Then(inner, end), rest);
    ThenIsAssociative(inner, end, rest);
    ThenIsAssociative(name, start, Then(inner, Then(end, rest)));
  }

  lemma FieldIsRead(f: Field, rest: Script, limit: nat)
    requires WellFormed(f)
    ensures ReadField(Then(FieldScript(f), rest), limit)
      == if FieldUsable(f, limit) then Some(Reading(if f.Data? then [f.items] else [], rest)) else None
  {
    match f {
      case Data(items) =>
        var behind := Then(Script([Next(Delim(']'))], [], []), rest);
        var data := Then(Script([Next(Delim('['))], [], []), Then(ItemsScript(items), behind));
        DataFieldScript(items, rest);
        FirstAnswers(data);
        FirstAnswers(Then(ItemsScript(items), behind));
        FirstAnswers(rest);
        ItemsAreRead(items, behind, limit);
      case Other(name, value) =>
        var s := Then(FieldScript(f), rest);
        assert Script([Next(Name(name))], [], [value])
          == Then(Script([Next(Name(name))], [], []), Script([], [], [value]));
        ThenIsAssociative(Script([Next(Name(name))], [], []), Script([], [], [value]), rest);
        FirstAnswers(Then(Script([], [], [value]), rest));
        FirstAnswers(rest);
        assert s.Token() == Next(Name(name)) && s.AfterToken() == Then(Script([], [], [value]), rest);
    }
  }

  lemma {:induction false} FieldsAreRead(fields: seq<Field>, rest: Script, limit: nat)
    requires AllWellFormed(fields)
    ensures var s := Then(FieldsScript(fields), rest);
      ReadFields(s.More(), s.AfterMore(), limit)
        == if FieldsUsable(fields, limit) then Some(Reading(DataOf(fields), rest)) else None
  {
    var s := Then(FieldsScript(fields), rest);
    if fields == [] {
      FirstAnswers(rest);
    } else {
      var later := Then(FieldsScript(fields[1..]), rest);
      FirstField(fields, limit);
      FirstAnswers(Then(FieldScript(fields[0]), later));
      FieldIsRead(fields[0], later, limit);
      FieldsAreRead(fields[1..], rest, limit);
      ThenIsAssociative(Script([], [true], []), Then(FieldScript(fields[0]), FieldsScript(fields[1..])), rest);
      ThenIsAssociative(FieldScript(fields[0]), FieldsScript(fields[1..]), rest);
      assert s.More() && s.AfterMore() == Then(FieldScript(fields[0]), later);
    }
  }

  /** A response that ends with its object is read if and only if every image in its data can be used and
      there is one; then what is read are its data, array by array. */
  lemma {:induction false} ResponseIsRead(fields: seq<Field>, limit: nat)
    requires AllWellFormed(fields)
    ensures ReadResponse(ResponseScript(fields), limit)
      == if FieldsUsable(fields, limit) && (exists items :: items in DataOf(fields) && items != [])
         then Some(DataOf(fields)) else None
  {
    var end := Script([Next(Delim('}'))], [], []);
    FirstAnswers(Then(FieldsScript(fields), end));
    FieldsAreRead(fields, end, limit);
    ExpectedSome(DataOf(fields));
    assert end.Token() == Next(Delim('}')) && end.AfterToken().Token() == EndOfInput;
  }

  /** With anything behind the object it is refused. */
  lemma {:induction false} NothingMayFollow(fields: seq<Field>, more: TokenAnswer, limit: nat)
    requires AllWellFormed(fields) && more != EndOfInput
    ensures ReadResponse(Then(Script([Next(Delim('{'))], [], []),
      Then(FieldsScript(fields), Script([Next(Delim('}')), more], [], []))), limit) == None
  {
    var end := Script([Next(Delim('}')), more], [], []);
    FirstAnswers(Then(FieldsScript(fields), end));
    FieldsAreRead(fields, end, limit);
    assert end.AfterToken().Token() == more;
  }

  lemma {:induction false} ExpectedSome(arrays: seq<seq<Item>>)
    ensures Expected(arrays) != [] <==> exists items :: items in arrays && items != []
  {
    if arrays != [] {
      var n := |arrays| - 1;
      ExpectedSome(arrays[..n]);
      assert |Expected(arrays)| == |Expected(arrays[..n])| + |arrays[n]|;
      assert arrays == arrays[..n] + [arrays[n]];
      if Expected(arrays[..n]) != [] {
        var items :| items in arrays[..n] && items != [];
        assert items in arrays;
      } else if arrays[n] != [] {
        assert arrays[n] in arrays;
      } else {
        assert forall items :: items in arrays ==> items in arrays[..n] || items == arrays[n];
      }
    }
  }

  // ---------------------------------------------------------------------------------------
  // Images and their files.

  /** The bytes an item stands for: its inline ones if it has any, else those at its address. */
  function BytesOf(item: Item): Bytes {
    if item.base64.Some? then item.base64.value.bytes
    else if item.url.Some? && item.url.value.Answered? then item.url.value.body.bytes
    else []
  }

  function MimeOf(item: Item): string {
    var given := if item.mime.Some? then item.mime.value else "image/png";
    if item.base64.None? && item.url.Some? && item.url.value.Answered? && item.url.value.contentType != ""
      then item.url.value.contentType
    else given
  }

  /** The image is the expected one: with its index, and of its item, the file included. */
  predicate ImageOf(files: map<Path, Bytes>, image: Image, expected: (nat, Item)) {
    var (index, item) := expected;
    && image.path in files && files[image.path] == BytesOf(item)
    && image.index == index && image.mime == MimeOf(item) && image.fromUrl == item.base64.None?
  }

  /** The images are the expected ones, one for one and in order. */
  predicate ImagesMatch(files: map<Path, Bytes>, images: seq<Image>, expected: seq<(nat, Item)>) {
    && |images| == |expected|
    && forall i {:trigger ImageOf(files, images[i], expected[i])} :: 0 <= i < |images| ==>
      ImageOf(files, images[i], expected[i])
  }

  lemma ImagesMatchOn(before: map<Path, Bytes>, after: map<Path, Bytes>, first: seq<Image>, e: seq<(nat, Item)>,
      second: seq<Image>, f: seq<(nat, Item)>)
    requires ImagesMatch(before, first, e) && ImagesMatch(after, second, f)
    requires forall p :: p in before ==> p in after && after[p] == before[p]
    ensures ImagesMatch(after, first + second, e + f)
  {
    forall i | 0 <= i < |first + second| ensures ImageOf(after, (first + second)[i], (e + f)[i]) {
      if i < |first| {
        assert ImageOf(before, first[i], e[i]);
      } else {
        assert ImageOf(after, second[i - |first|], f[i - |first|]);
      }
    }
  }

  /** One image for each expected one: its index, and in its file the item's bytes, as many as it says. */
  ghost predicate AreImages(files: map<Path, Bytes>, images: seq<Image>, expected: seq<(nat, Item)>, limit: nat) {
    && |images| == |expected|
    && forall i :: 0 <= i < |images| ==>
         && images[i].index == expected[i].0
         && images[i].path in files && files[images[i].path] == BytesOf(expected[i].1)
         && images[i].size == |files[images[i].path]| && 1 <= images[i].size <= limit
  }

  lemma CollectedAreImages(before: map<Path, Bytes>, after: map<Path, Bytes>, images: seq<Image>,
      expected: seq<(nat, Item)>, limit: nat)
    requires Collected(before, after, images, expected, limit)
    ensures AreImages(after, images, expected, limit)
  {
    AddedSizes(before, after, images, limit);
    forall i | 0 <= i < |images| ensures ImageOf(after, images[i], expected[i]) {
    }
  }

  lemma {:induction false} AddedSizes(before: map<Path, Bytes>, after: map<Path, Bytes>, images: seq<Image>, limit: nat)
    requires Added(before, after, images, limit)
    ensures forall i :: 0 <= i < |images| ==>
      && images[i].path in after
      && images[i].size == |after[images[i].path]| && 1 <= images[i].size <= limit
  {
    if images != [] {
      var n := |images| - 1;
      AddedSizes(before, after - {images[n].path}, images[..n], limit);
      forall i | 0 <= i < n ensures images[i].path in after
        && images[i].size == |after[images[i].path]| && 1 <= images[i].size <= limit
      {
        assert images[..n][i] == images[i];
      }
    }
  }

  /** The images' files, and nothing else, have come in addition, one after the other, each under a
      name of its own and of its image's size. */
  ghost predicate Added(before: map<Path, Bytes>, after: map<Path, Bytes>, images: seq<Image>, limit: nat) {
    if images == [] then after == before
    else
      var last := images[|images| - 1];
      && last.path in after && last.path !in before
      && last.size == |after[last.path]| && 0 < last.size <= limit
      && Added(before, after - {last.path}, images[..|images| - 1], limit)
  }

  lemma OneAdded(before: map<Path, Bytes>, image: Image, bytes: Bytes, limit: nat)
    requires image.path !in before && image.size == |bytes| && 0 < |bytes| <= limit
    ensures Added(before, before[image.path := bytes], [image], limit)
  {
    var after := before[image.path := bytes];
    assert after - {image.path} == before;
    assert [image][..0] == [];
  }

  lemma {:induction false} AddedKeeps(before: map<Path, Bytes>, after: map<Path, Bytes>, images: seq<Image>, limit: nat)
    requires Added(before, after, images, limit)
    ensures forall p :: p in before ==> p in after && after[p] == before[p]
  {
    if images != [] {
      AddedKeeps(before, after - {images[|images| - 1].path}, images[..|images| - 1], limit);
    }
  }

  lemma {:induction false} AddedInTurn(a: map<Path, Bytes>, b: map<Path, Bytes>, c: map<Path, Bytes>,
      first: seq<Image>, second: seq<Image>, limit: nat)
    requires Added(a, b, first, limit) && Added(b, c, second, limit)
    ensures Added(a, c, first + second, limit)
    decreases |second|
  {
    if second == [] {
      assert first + second == first;
    } else {
      var n := |second| - 1;
      AddedKeeps(a, b, first, limit);
      AddedInTurn(a, b, c - {second[n].path}, first, second[..n], limit);
      assert (first + second)[..|first| + n] == first + second[..n];
    }
  }

  /** Removing the images' files undoes their addition. */
  function Paths(images: seq<Image>): set<Path> {
    set i | 0 <= i < |images| :: images[i].path
  }

  lemma {:induction false} RemovalUndoes(before: map<Path, Bytes>, after: map<Path, Bytes>, images: seq<Image>,
      limit: nat)
    requires Added(before, after, images, limit)
    ensures after - Paths(images) == before
  {
    if images != [] {
      var n := |images| - 1;
      RemovalUndoes(before, after - {images[n].path}, images[..n], limit);
      assert Paths(images) == Paths(images[..n]) + {images[n].path};
      assert after - Paths(images) == after - {images[n].path} - Paths(images[..n]);
    }
  }

  lemma {:induction false} UnusedPath(used: set<Path>) returns (path: Path)
    ensures path !in used && forall p :: p in used ==> p < path
  {
    if used == {} {
      path := 0;
    } else {
      var p :| p in used;
      assert used == used - {p} + {p};
      var q := UnusedPath(used - {p});
      path := if p < q then q else p + 1;
    }
  }

  /** All that is known of the images so far: their files have come in addition, and they are the
      expected ones. */
  ghost predicate Collected(before: map<Path, Bytes>, after: map<Path, Bytes>, images: seq<Image>,
      expected: seq<(nat, Item)>, limit: nat) {
    Added(before, after, images, limit) && ImagesMatch(after, images, expected)
  }

  lemma CollectedInTurn(a: map<Path, Bytes>, b: map<Path, Bytes>, c: map<Path, Bytes>, first: seq<Image>,
      e: seq<(nat, Item)>, second: seq<Image>, f: seq<(nat, Item)>, limit: nat)
    requires Collected(a, b, first, e, limit) && Collected(b, c, second, f, limit)
    ensures Collected(a, c, first + second, e + f, limit)
  {
    AddedInTurn(a, b, c, first, second, limit);
    AddedKeeps(b, c, second, limit);
    ImagesMatchOn(b, c, first, e, second, f);
  }

  lemma {:induction false} OneMoreImage(a: map<Path, Bytes>, b: map<Path, Bytes>, c: map<Path, Bytes>,
      images: seq<Image>,
      items: seq<Item>, image: Image, item: Item, limit: nat)
    requires Collected(a, b, images, Numbered(items), limit)
    requires Added(b, c, [image], limit) && ImageOf(c, image, (|items|, item))
    ensures Collected(a, c, images + [image], Numbered(items + [item]), limit)
  {
    CollectedInTurn(a, b, c, images, Numbered(items), [image], [(|items|, item)], limit);
    NumberedNext(items, item);
  }

  lemma {:induction false} NumberedNext(items: seq<Item>, item: Item)
    ensures Numbered(items + [item]) == Numbered(items) + [(|items|, item)]
  {
    assert (items + [item])[..|items|] == items;
  }

  lemma {:induction false} OneMoreField(a: map<Path, Bytes>, b: map<Path, Bytes>, c: map<Path, Bytes>,
      images: seq<Image>,
      arrays: seq<seq<Item>>, more: seq<Image>, field: seq<seq<Item>>, limit: nat)
    requires Collected(a, b, images, Expected(arrays), limit) && Collected(b, c, more, Expected(field), limit)
      && |field| <= 1
    ensures Collected(a, c, images + more, Expected(arrays + field), limit)
  {
    CollectedInTurn(a, b, c, images, Expected(arrays), more, Expected(field), limit);
    ExpectedInTurn(arrays, field);
  }

  lemma {:induction false} ExpectedInTurn(arrays: seq<seq<Item>>, more: seq<seq<Item>>)
    requires |more| <= 1
    ensures Expected(arrays + more) == Expected(arrays) + Expected(more)
  {
    assert arrays + [] == arrays;
    if more != [] {
      assert more[..0] == [];
      assert (arrays + more)[..|arrays|] == arrays;
    }
  }

  class Client {
    const maxImageBytes: nat
    /** The temporary directory, with whatever else lies in it. */
    var files: map<Path, Bytes>
    /** How the file system's next operations go. */
    var luck: seq<bool>
    var script: Script

    constructor (maxImageBytes: nat, files: map<Path, Bytes>, luck: seq<bool>, script: Script)
      ensures this.maxImageBytes == maxImageBytes && this.files == files && this.luck == luck && this.script == script
    {
      this.maxImageBytes, this.files, this.luck, this.script := maxImageBytes, files, luck, script;
    }

    method Lucky() returns (lucky: bool)
      modifies this`luck
      ensures lucky == Luck.Next(old(luck)) && luck == Later(old(luck))
    {
      lucky := true;
      if luck != [] {
        lucky, luck := luck[0], luck[1..];
      }
    }

    /** A new empty file under a name not in use. */
    method CreateTemp() returns (path: Option<Path>)
      modifies this`files, this`luck
      ensures path == None ==> files == old(files)
      ensures path.Some? ==> path.value !in old(files) && files == old(files)[path.value := []]
      ensures path.Some? == Luck.Next(old(luck)) && luck == Later(old(luck))
    {
      var lucky := Lucky();
      if !lucky {
        return None;
      }
      ghost var unused := UnusedPath(files.Keys);
      assert unused !in files;
      var name: Path :| name !in files;
      files := files[name := []];
      return Some(name);
    }

    /** Copies up to one byte more than the limit; none if the body broke off before that, or the
        disk did not take it. */
    method Copy(path: Path, body: Body) returns (size: Option<nat>)
      requires path in files
      modifies this`files, this`luck
      ensures exists written ::
        && files == old(files)[path := written]
        && (size.Some? ==> size.value == |written| && written <= body.bytes)
      ensures size.Some? && size.value <= maxImageBytes ==> !body.broken && files[path] == body.bytes
      ensures UsableBody(body, maxImageBytes) && Luck.Next(old(luck)) ==> size == Some(|body.bytes|)
      ensures size.Some? ==> Luck.Next(old(luck))
      ensures luck == Later(old(luck))
    {
      var n := if |body.bytes| > maxImageBytes + 1 then maxImageBytes + 1 else |body.bytes|;
      files := files[path := body.bytes[..n]];
      var lucky := Lucky();
      if !lucky || (body.broken && |body.bytes| <= maxImageBytes) {
        return None;
      }
      assert n == |body.bytes| ==> body.bytes[..n] == body.bytes;
      return Some(n);
    }

    /** Fills a new file from a body that must be neither empty nor too large. */
    method StoreBody(body: Body) returns (r: Option<(Path, nat)>)
      modifies this`files, this`luck
      ensures r == None ==> files == old(files)
      ensures r.Some? ==> UsableBody(body, maxImageBytes) && r.value.1 == |body.bytes|
      ensures r.Some? ==> r.value.0 !in old(files) && files == old(files)[r.value.0 := body.bytes]
      ensures r.Some? <==> !body.broken && 1 <= |body.bytes| <= maxImageBytes && AllWell(old(luck), 3)
      ensures old(luck) == [] ==> luck == [] && (r.Some? <==> UsableBody(body, maxImageBytes))
    {
      ThreeWell(luck);
      var path := CreateTemp();
      if path == None {
        return None;
      }
      var size := Copy(path.value, body);
      if size.Some? && 0 < size.value <= maxImageBytes {
        var closed := Lucky();
        if closed {
          return Some((path.value, size.value));
        }
      }
      files := files - {path.value};
      return None;
    }

    method FetchImage(answer: Fetched) returns (r: Option<(Path, nat)>)
      modifies this`files, this`luck
      ensures r == None ==> files == old(files)
      ensures r.Some? ==> UsableAnswer(answer, maxImageBytes) && r.value.1 == |answer.body.bytes|
      ensures r.Some? ==> r.value.0 !in old(files) && files == old(files)[r.value.0 := answer.body.bytes]
      ensures r.Some? <==>
        && answer.Answered? && 200 <= answer.status <= 299 && answer.contentLength <= maxImageBytes
        && !answer.body.broken && 1 <= |answer.body.bytes| <= maxImageBytes && AllWell(old(luck), 3)
      ensures old(luck) == [] ==> luck == [] && (r.Some? <==> UsableAnswer(answer, maxImageBytes))
    {
      if answer.Unreachable? || answer.status < 200 || answer.status >= 300 || answer.contentLength > maxImageBytes {
        return None;
      }
      r := StoreBody(answer.body);
    }

    /** One image, from its inline bytes if it has any, else from its address. */
    method MaterializeImage(item: Item, index: nat) returns (r: Option<Image>)
      modifies this`files, this`luck
      ensures r == None ==> files == old(files)
      ensures r.Some? ==> Added(old(files), files, [r.value], maxImageBytes)
      ensures r.Some? ==> UsableItem(item, maxImageBytes) && ImageOf(files, r.value, (index, item))
      ensures r.Some? <==> UsableItem(item, maxImageBytes) && AllWell(old(luck), 3)
      ensures r.Some? && item.base64.Some? ==>
        && files[r.value.path] == item.base64.value.bytes && !item.base64.value.broken && !r.value.fromUrl
        && r.value.mime == if item.mime.Some? then item.mime.value else "image/png"
      ensures r.Some? && item.base64.None? ==>
        && item.url.Some? && item.url.value.Answered? && 200 <= item.url.value.status <= 299
        && files[r.value.path] == item.url.value.body.bytes && !item.url.value.body.broken && r.value.fromUrl
        && r.value.mime == if item.url.value.contentType != "" then item.url.value.contentType
                           else if item.mime.Some? then item.mime.value else "image/png"
      ensures r.Some? ==>
        r.value.index == index && r.value.size == |files[r.value.path]| && 1 <= r.value.size <= maxImageBytes
      ensures old(luck) == [] ==> luck == [] && (r.Some? <==> UsableItem(item, maxImageBytes))
    {
      var mime := if item.mime.Some? then item.mime.value else "image/png";
      var stored;
      if item.base64.Some? {
        stored := StoreBody(item.base64.value);
      } else if item.url.Some? {
        stored := FetchImage(item.url.value);
        if stored.Some? && item.url.value.contentType != "" {
          mime := item.url.value.contentType;
        }
      } else {
        stored := None;
      }
      if stored == None {
        return None;
      }
      r := Some(Image(stored.value.0, stored.value.1, mime, index, item.base64.None?));
      OneAdded(old(files), r.value, BytesOf(item), maxImageBytes);
    }

    method RemoveTemporaryImages(images: seq<Image>)
      modifies this`files
      ensures files == old(files) - Paths(images)
    {
      for i := 0 to |images|
        invariant files == old(files) - Paths(images[..i])
      {
        files := files - {images[i].path};
        assert Paths(images[..i + 1]) == Paths(images[..i]) + {images[i].path};
      }
      assert images[..|images|] == images;
    }

    method NextToken() returns (a: TokenAnswer)
      modifies this`script
      ensures a == old(script).Token() && script == old(script).AfterToken()
    {
      a := script.Token();
      script := script.AfterToken();
    }

    method HasMore() returns (more: bool)
      modifies this`script
      ensures more == old(script).More() && script == old(script).AfterMore()
    {
      more := script.More();
      script := script.AfterMore();
    }

    method Decode() returns (a: ValueAnswer)
      modifies this`script
      ensures a == old(script).Value() && script == old(script).AfterValue()
    {
      a := script.Value();
      script := script.AfterValue();
    }

    /** One item of the data array, as the image with that index. */
    method DecodeItem(index: nat) returns (r: Option<Image>)
      modifies this`files, this`luck, this`script
      ensures script == old(script).AfterValue()
      ensures r == None ==> files == old(files)
      ensures r.Some? ==> Added(old(files), files, [r.value], maxImageBytes)
      ensures r.Some? ==> ReadableValue(old(script)) && ImageOf(files, r.value, (index, old(script).Value().item))
      ensures old(luck) == [] ==> luck == [] && (r.Some? <==> ReadableValue(old(script)))
    {
      var value := Decode();
      if !value.Decoded? {
        return None;
      }
      r := MaterializeImage(value.item, index);
    }

    predicate ReadableValue(s: Script) {
      s.Value().Decoded? && UsableItem(s.Value().item, maxImageBytes)
    }

    /** Gives up on the images so far. */
    method GiveUp(ghost before: map<Path, Bytes>, images: seq<Image>)
      requires Added(before, files, images, maxImageBytes)
      modifies this`files
      ensures files == before
    {
      RemovalUndoes(before, files, images, maxImageBytes);
      RemoveTemporaryImages(images);
    }

    /** The items of an array after its opening bracket: their images, in order, or none and
        nothing left of them. */
    method DecodeItems() returns (r: Option<seq<Image>>)
      modifies this
      ensures r == None ==> files == old(files)
      ensures var reading := ReadItems(old(script).More(), old(script).AfterMore(), maxImageBytes);
        && (r.Some? ==> reading.Some? && reading.value.rest == script
                        && Collected(old(files), files, r.value, Numbered(reading.value.value), maxImageBytes))
        && (old(luck) == [] ==> luck == [] && (r.Some? <==> reading.Some?))
    {
      ghost var reading := ReadItems(script.More(), script.AfterMore(), maxImageBytes);
      ghost var items: seq<Item> := [];
      var images: seq<Image> := [];
      var more := HasMore();
      BehindBoth([], [], reading);
      while more
        invariant Collected(old(files), files, images, Numbered(items), maxImageBytes)
        invariant reading == Behind(items, ReadItems(more, script, maxImageBytes))
        invariant old(luck) == [] ==> luck == []
        decreases |script.mores| + (if more then 1 else 0)
      {
        ghost var before, s := files, script;
        var image := DecodeItem(|images|);
        if image == None {
          GiveUp(old(files), images);
          return None;
        }
        ItemTaken(s, items, maxImageBytes);
        OneMoreImage(old(files), before, files, images, items, image.value, s.Value().item, maxImageBytes);
        images, items := images + [image.value], items + [s.Value().item];
        more := HasMore();
      }
      BehindNothing(items, script);
      return Some(images);
    }

    /** The data array: the images of all its items, in order, or none and nothing left of them. */
    method DecodeData() returns (r: Option<seq<Image>>)
      modifies this
      ensures r == None ==> files == old(files)
      ensures var reading := ReadArray(old(script), maxImageBytes);
        && (r.Some? ==> reading.Some? && reading.value.rest == script
                        && Collected(old(files), files, r.value, Numbered(reading.value.value), maxImageBytes))
        && (old(luck) == [] ==> luck == [] && (r.Some? <==> reading.Some?))
    {
      var start := NextToken();
      if start != Next(Delim('[')) {
        return None;
      }
      r := DecodeItems();
      if r.Some? {
        var end := NextToken();
        if !end.Next? {
          GiveUp(old(files), r.value);
          return None;
        }
      }
    }

    /** One field of the response object: the images of the data, none of another field. */
    method ParseField() returns (r: Option<seq<Image>>)
      modifies this
      ensures r == None ==> files == old(files)
      ensures var reading := ReadField(old(script), maxImageBytes);
        && (r.Some? ==> reading.Some? && reading.value.rest == script && |reading.value.value| <= 1
                        && Collected(old(files), files, r.value, Expected(reading.value.value), maxImageBytes))
        && (old(luck) == [] ==> luck == [] && (r.Some? <==> reading.Some?))
    {
      ghost var reading := ReadField(script, maxImageBytes);
      var field := NextToken();
      if !field.Next? || !field.token.Name? {
        return None;
      }
      if field.token.name == "data" {
        r := DecodeData();
        if r.Some? {
          assert Expected(reading.value.value) == Numbered(reading.value.value[0]) by {
            assert reading.value.value[..0] == [];
          }
        }
      } else {
        var value := Decode();
        r := if value == BadValue then None else Some([]);
      }
    }

    /** The fields of the response object, up to its closing brace, with the images of all its data
        arrays so far. */
    method ParseFields() returns (ok: bool, images: seq<Image>)
      modifies this
      ensures Added(old(files), files, images, maxImageBytes)
      ensures var reading := ReadFields(old(script).More(), old(script).AfterMore(), maxImageBytes);
        && (ok ==> reading.Some? && reading.value.rest == script)
        && (ok ==> ImagesMatch(files, images, Expected(reading.value.value)))
        && (old(luck) == [] ==> luck == [] && (ok <==> reading.Some?))
    {
      ghost var reading := ReadFields(script.More(), script.AfterMore(), maxImageBytes);
      ghost var arrays: seq<seq<Item>> := [];
      ok, images := true, [];
      var more := HasMore();
      BehindBoth([], [], reading);
      while more
        invariant ok && Collected(old(files), files, images, Expected(arrays), maxImageBytes)
        invariant reading == Behind(arrays, ReadFields(more, script, maxImageBytes))
        invariant old(luck) == [] ==> luck == []
        decreases |script.mores| + (if more then 1 else 0)
      {
        ghost var before, s := files, script;
        var parsed := ParseField();
        if parsed == None {
          return false, images;
        }
        ghost var field := ReadField(s, maxImageBytes).value.value;
        FieldTaken(s, arrays, maxImageBytes);
        OneMoreField(old(files), before, files, images, arrays, parsed.value, field, maxImageBytes);
        images, arrays := images + parsed.value, arrays + field;
        more := HasMore();
      }
      BehindNothing(arrays, script);
    }

    /** The whole response: the images of all items of its data, in order, each with its item's
        bytes in a file of its own, or none and nothing left of them. Unless disk or randomness
        fail, that is decided by what the response says. */
    method ParseResponse() returns (r: Option<seq<Image>>)
      modifies this
      ensures r == None ==> files == old(files)
      ensures var reading := ReadResponse(old(script), maxImageBytes);
        && (r.Some? ==> reading.Some? && r.value != []
                        && Collected(old(files), files, r.value, Expected(reading.value), maxImageBytes))
        && (r.Some? ==> AreImages(files, r.value, Expected(reading.value), maxImageBytes))
        && (old(luck) == [] ==> (r.Some? <==> reading.Some?))
    {
      var start := NextToken();
      if start != Next(Delim('{')) {
        return None;
      }
      var ok, images := ParseFields();
      if ok {
        var end := NextToken();
        ok := end.Next?;
      }
      if ok {
        var trailing := NextToken();
        ok := trailing == EndOfInput;
      }
      if ok && images != [] {
        CollectedAreImages(old(files), files, images, Expected(ReadResponse(old(script), maxImageBytes).value),
          maxImageBytes);
        return Some(images);
      }
      GiveUp(old(files), images);
      return None;
    }
  }
}
