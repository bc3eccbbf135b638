/**
 * The renderers behind `ASR.to`: the SRT subtitle file, the plain-text
 * transcript and the backup record, the selection of a renderer by the
 * path's suffix, and the run of `to` over its paths in order.
 */
module Render {
  import opened Wrappers
  import opened Transcript
  import opened Sorting
  import opened TimeCode

  // ---------------------------------------------------------------- channel

  /** The sentences of s on channel ch, in their order in s. */
  function OnChannel(s: seq<Sentence>, ch: int): seq<Sentence>
  {
    if s == [] then []
    else (if s[0].channelId == ch then [s[0]] else []) + OnChannel(s[1..], ch)
  }

  /**
   * Every sentence on channel ch is kept, as often as s holds it, and no
   * sentence of another channel is.
   */
  lemma {:induction false} OnChannelCount(s: seq<Sentence>, ch: int, x: Sentence)
    ensures multiset(OnChannel(s, ch))[x] == if x.channelId == ch then multiset(s)[x] else 0
  {
    if s != [] {
      OnChannelCount(s[1..], ch, x);
      assert s == [s[0]] + s[1..];
    }
  }

  /** Filtering a concatenation filters each part and keeps them in order. */
  lemma {:induction false} OnChannelAppend(a: seq<Sentence>, b: seq<Sentence>, ch: int)
    ensures OnChannel(a + b, ch) == OnChannel(a, ch) + OnChannel(b, ch)
  {
    if a != [] {
      OnChannelAppend(a[1..], b, ch);
      assert (a + b)[1..] == a[1..] + b;
    } else {
      assert a + b == b;
    }
  }

  // -------------------------------------------------------------------- SRT

  /** One SRT cue: its number and the sentence it shows. */
  datatype Cue = Cue(index: nat, sentence: Sentence)

  /** `enumerate(s, from)`. */
  function Enumerate(s: seq<Sentence>, from: nat): (r: seq<Cue>)
    ensures |r| == |s|
    ensures forall i :: 0 <= i < |s| ==> r[i] == Cue(from + i, s[i])
  {
    if s == [] then [] else [Cue(from, s[0])] + Enumerate(s[1..], from + 1)
  }

  /** The cues of `to_srt`: the channel's sentences, stably sorted by begin time, numbered from 0. */
  function Cues(sentences: seq<Sentence>, ch: int): seq<Cue>
  {
    Enumerate(SortByBegin(OnChannel(sentences, ch)), 0)
  }

  /** `f'{ith}\n{start} --> {end}\n{item["Text"]}\n\n'`. */
  function CueText(c: Cue): string
  {
    Digits(c.index) + "\n"
      + TimeCodeOf(c.sentence.beginTime) + " --> " + TimeCodeOf(c.sentence.endTime) + "\n"
      + c.sentence.text + "\n\n"
  }

  /** The text of the cues written one after another. */
  function CuesText(cues: seq<Cue>): string
  {
    if cues == [] then "" else CuesText(cues[..|cues| - 1]) + CueText(cues[|cues| - 1])
  }

  /** The content of the SRT file for the sentences of a result. */
  function Srt(sentences: seq<Sentence>, ch: int): string
  {
    CuesText(Cues(sentences, ch))
  }

  /**
   * The cues number the channel's sentences 0, 1, …, n-1; they hold every
   * sentence of the channel as often as the result does and none of another
   * channel; they are in non-decreasing begin time; and sentences that begin
   * at the same time keep the order of the result.
   */
  lemma CuesSpec(sentences: seq<Sentence>, ch: int)
    ensures var cues := Cues(sentences, ch);
      |cues| == |OnChannel(sentences, ch)|
      && (forall i :: 0 <= i < |cues| ==> cues[i].index == i && cues[i].sentence.channelId == ch)
      && (forall i, j :: 0 <= i < j < |cues| ==> cues[i].sentence.beginTime <= cues[j].sentence.beginTime)
  {
    var f := OnChannel(sentences, ch);
    var o := SortByBegin(f);
    SortPermutes(f);
    SortSorted(f);
    forall i | 0 <= i < |o| ensures o[i].channelId == ch {
      assert o[i] in multiset(f);
      OnChannelCount(sentences, ch, o[i]);
    }
  }

  /** The sentences shown by the cues, in cue order. */
  function Shown(cues: seq<Cue>): (r: seq<Sentence>)
    ensures |r| == |cues|
    ensures forall i :: 0 <= i < |cues| ==> r[i] == cues[i].sentence
  {
    if cues == [] then [] else [cues[0].sentence] + Shown(cues[1..])
  }

  lemma {:induction false} ShownEnumerate(s: seq<Sentence>, from: nat)
    ensures Shown(Enumerate(s, from)) == s
  {
    if s != [] {
      ShownEnumerate(s[1..], from + 1);
    }
  }

  /**
   * The cues show a permutation of the channel's sentences, each sentence of
   * ch exactly as often as the result holds it, and each group of sentences
   * with one begin time appears in the result's order.
   */
  lemma CuesPermutation(sentences: seq<Sentence>, ch: int, x: Sentence, k: int)
    ensures var shown := Shown(Cues(sentences, ch));
      multiset(shown)[x] == (if x.channelId == ch then multiset(sentences)[x] else 0)
      && WithBegin(shown, k) == WithBegin(OnChannel(sentences, ch), k)
  {
    var f := OnChannel(sentences, ch);
    ShownEnumerate(SortByBegin(f), 0);
    SortPermutes(f);
    SortStable(f, k);
    OnChannelCount(sentences, ch, x);
  }

  /**
   * Two sentences on channel 0 and one on channel 1: the SRT has two cues,
   * numbered 0 and 1, "a" before "b", and no "c"; the TXT keeps the result's
   * order, which here differs from the SRT's.
   */
  lemma OrderExample()
    ensures var a := Sentence(0, 0, 1000000, "a");
      var b := Sentence(0, 500000, 1500000, "b");
      var c := Sentence(1, 0, 1000000, "c");
      Cues([a, b, c], 0) == [Cue(0, a), Cue(1, b)]
      && Cues([b, a, c], 0) == [Cue(0, a), Cue(1, b)]
      && Txt([b, a, c], 0) == "b\na"
  {
    var a := Sentence(0, 0, 1000000, "a");
    var b := Sentence(0, 500000, 1500000, "b");
    var c := Sentence(1, 0, 1000000, "c");
    ChannelOfThree(a, b, c, 0);
    ChannelOfThree(b, a, c, 0);
    SortTwo(a, b);
    SortTwo(b, a);
    assert Texts([b, a]) == ["b", "a"];
    assert ["b", "a"][..1] == ["b"];
  }

  lemma ChannelOfThree(x: Sentence, y: Sentence, z: Sentence, ch: int)
    requires x.channelId == ch && y.channelId == ch && z.channelId != ch
    ensures OnChannel([x, y, z], ch) == [x, y]
  {
    assert [x, y, z][1..] == [y, z] && [y, z][1..] == [z] && [z][1..] == [];
    assert OnChannel([z], ch) == [];
    assert OnChannel([y, z], ch) == [y];
  }

  lemma SortTwo(x: Sentence, y: Sentence)
    ensures SortByBegin([x, y]) == if x.beginTime <= y.beginTime then [x, y] else [y, x]
  {
    assert [x, y][1..] == [y] && [y][1..] == [];
    assert SortByBegin([y]) == Insert(y, []) == [y];
    assert SortByBegin([x, y]) == Insert(x, [y]);
    if x.beginTime > y.beginTime {
      assert Insert(x, [y]) == [y] + Insert(x, []);
    }
  }

  // -------------------------------------------------------------------- TXT

  /** The texts of the sentences, in order. */
  function Texts(s: seq<Sentence>): (r: seq<string>)
    ensures |r| == |s|
    ensures forall i :: 0 <= i < |s| ==> r[i] == s[i].text
  {
    if s == [] then [] else [s[0].text] + Texts(s[1..])
  }

  /** `'\n'.join(xs)`. */
  function Join(xs: seq<string>): string
  {
    if xs == [] then ""
    else if |xs| == 1 then xs[0]
    else Join(xs[..|xs| - 1]) + "\n" + xs[|xs| - 1]
  }

  /** `s.split('\n')`: the pieces between the newlines, always at least one. */
  function Lines(s: string): (r: seq<string>)
    ensures |r| >= 1
  {
    if s == [] then [""]
    else if s[|s| - 1] == '\n' then Lines(s[..|s| - 1]) + [""]
    else var r := Lines(s[..|s| - 1]); r[..|r| - 1] + [r[|r| - 1] + [s[|s| - 1]]]
  }

  predicate NoNewline(x: string) { forall i :: 0 <= i < |x| ==> x[i] != '\n' }

  /** A string without newlines is one line. */
  lemma {:induction false} LinesOfLine(x: string)
    requires NoNewline(x)
    ensures Lines(x) == [x]
  {
    if x != [] {
      LinesOfLine(x[..|x| - 1]);
      assert x[..|x| - 1] + [x[|x| - 1]] == x;
    }
  }

  /** Splitting `a + "\n" + x`, where x has no newline, splits a and adds x. */
  lemma {:induction false} LinesAppend(a: string, x: string)
    requires NoNewline(x)
    ensures Lines(a + "\n" + x) == Lines(a) + [x]
    decreases |x|
  {
    if x == [] {
      assert (a + "\n" + x)[..|a| + 1 - 1] == a;
    } else {
      var y := x[..|x| - 1];
      var s := a + "\n" + x;
      assert s[..|s| - 1] == a + "\n" + y;
      assert s[|s| - 1] == x[|x| - 1] != '\n';
      var r := Lines(a + "\n" + y);
      assert r == Lines(a) + [y] by {
        LinesAppend(a, y);
      }
      assert r[..|r| - 1] == Lines(a);
      assert y + [x[|x| - 1]] == x;
    }
  }

  /**
   * `split` inverts `join` on pieces without newlines; joining nothing gives
   * the empty string, which splits into one empty piece.
   */
  lemma {:induction false} LinesJoin(xs: seq<string>)
    requires forall i :: 0 <= i < |xs| ==> NoNewline(xs[i])
    ensures Lines(Join(xs)) == if xs == [] then [""] else xs
  {
    if |xs| == 1 {
      LinesOfLine(xs[0]);
    } else if |xs| > 1 {
      var init := xs[..|xs| - 1];
      LinesJoin(init);
      LinesAppend(Join(init), xs[|xs| - 1]);
      assert init + [xs[|xs| - 1]] == xs;
    }
  }

  /** The number of newlines in s. */
  function Newlines(s: string): nat
  {
    if s == [] then 0 else Newlines(s[..|s| - 1]) + (if s[|s| - 1] == '\n' then 1 else 0)
  }

  /** A join of n pieces without newlines holds n - 1 newlines (so no trailing one). */
  lemma {:induction false} JoinNewlines(xs: seq<string>)
    requires forall i :: 0 <= i < |xs| ==> NoNewline(xs[i])
    ensures Newlines(Join(xs)) == if xs == [] then 0 else |xs| - 1
  {
    if |xs| == 1 {
      NoNewlines(xs[0]);
    } else if |xs| > 1 {
      JoinNewlines(xs[..|xs| - 1]);
      NewlinesAppend(Join(xs[..|xs| - 1]) + "\n", xs[|xs| - 1]);
      NewlinesAppend(Join(xs[..|xs| - 1]), "\n");
      NoNewlines(xs[|xs| - 1]);
    }
  }

  lemma {:induction false} NoNewlines(x: string)
    requires NoNewline(x)
    ensures Newlines(x) == 0
  {
    if x != [] {
      NoNewlines(x[..|x| - 1]);
    }
  }

  lemma {:induction false} NewlinesAppend(a: string, b: string)
    ensures Newlines(a + b) == Newlines(a) + Newlines(b)
    decreases |b|
  {
    if b == [] {
      assert a + b == a;
    } else {
      NewlinesAppend(a, b[..|b| - 1]);
      assert (a + b)[..|a + b| - 1] == a + b[..|b| - 1];
    }
  }

  /** The content of the TXT file: the channel's texts in the result's order, one per line. */
  function Txt(sentences: seq<Sentence>, ch: int): string
  {
    Join(Texts(OnChannel(sentences, ch)))
  }

  /**
   * `'\n'.join` gives the empty string exactly when the channel has no
   * sentence, or one sentence whose text is empty.
   */
  lemma TxtEmpty(sentences: seq<Sentence>, ch: int)
    ensures var f := OnChannel(sentences, ch);
      Txt(sentences, ch) == "" <==> f == [] || (|f| == 1 && f[0].text == "")
  {
    JoinEmpty(Texts(OnChannel(sentences, ch)));
  }

  lemma JoinEmpty(xs: seq<string>)
    ensures Join(xs) == "" <==> xs == [] || (|xs| == 1 && xs[0] == "")
  {
    if |xs| >= 2 {
      assert |Join(xs)| >= 1;
    }
  }

  /**
   * When no text of the channel holds a newline, the lines of the TXT file
   * are the texts of the channel's sentences in the result's order (not
   * sorted), separated by one newline fewer than there are sentences (so
   * none trails).
   */
  lemma TxtLines(sentences: seq<Sentence>, ch: int)
    requires forall x :: x in OnChannel(sentences, ch) ==> NoNewline(x.text)
    ensures OnChannel(sentences, ch) != [] ==> Lines(Txt(sentences, ch)) == Texts(OnChannel(sentences, ch))
    ensures OnChannel(sentences, ch) != [] ==> Newlines(Txt(sentences, ch)) == |OnChannel(sentences, ch)| - 1
  {
    var f := OnChannel(sentences, ch);
    forall i | 0 <= i < |f| ensures NoNewline(Texts(f)[i]) {
      assert f[i] in f;
    }
    LinesJoin(Texts(f));
    JoinNewlines(Texts(f));
  }

  // ---------------------------------------------------------------- suffix

  /** The last component of a '/'-separated path. */
  function Name(path: string): (n: string)
    ensures |n| <= |path|
    ensures forall i :: 0 <= i < |n| ==> n[i] != '/'
  {
    if path == [] || path[|path| - 1] == '/' then ""
    else Name(path[..|path| - 1]) + [path[|path| - 1]]
  }

  /** The index of the last '.' in s, or -1 (`str.rfind('.')`). */
  function LastDot(s: string): (i: int)
    ensures -1 <= i < |s|
    ensures i >= 0 ==> s[i] == '.'
    ensures forall j :: i < j < |s| ==> s[j] != '.'
  {
    if s == [] then -1
    else if s[|s| - 1] == '.' then |s| - 1
    else LastDot(s[..|s| - 1])
  }

  /**
   * pathlib's `suffix`: the name from its last '.', when that dot is neither
   * the first nor the last character of the name; otherwise empty.
   */
  function Suffix(path: string): (r: string)
    ensures r == [] || (r[0] == '.' && |r| >= 2 && forall j :: 1 <= j < |r| ==> r[j] != '.' && r[j] != '/')
  {
    var n := Name(path);
    var i := LastDot(n);
    if 0 < i < |n| - 1 then n[i..] else ""
  }

  /**
   * A path whose last component is a non-empty stem, a dot and a non-empty
   * extension without dots has that extension, dot included, as its suffix.
   */
  lemma SuffixOf(dir: string, stem: string, ext: string)
    requires stem != [] && ext != []
    requires forall i :: 0 <= i < |stem| ==> stem[i] != '/'
    requires forall i :: 0 <= i < |ext| ==> ext[i] != '/' && ext[i] != '.'
    ensures Suffix(dir + "/" + stem + "." + ext) == "." + ext
  {
    var n := stem + "." + ext;
    assert dir + "/" + stem + "." + ext == dir + "/" + n;
    assert Name(dir + "/" + n) == n by {
      NameOf(dir, n);
    }
    assert LastDot(n) == |stem| by {
      LastDotOf(stem, ext);
    }
    assert n[|stem|..] == "." + ext;
  }

  lemma {:induction false} NameOf(dir: string, n: string)
    requires forall i :: 0 <= i < |n| ==> n[i] != '/'
    ensures Name(dir + "/" + n) == n
    decreases |n|
  {
    var p := dir + "/" + n;
    if n == [] {
      assert p[|p| - 1] == '/';
    } else {
      var m := n[..|n| - 1];
      assert p[..|p| - 1] == dir + "/" + m;
      NameOf(dir, m);
      assert m + [n[|n| - 1]] == n;
    }
  }

  lemma {:induction false} LastDotOf(stem: string, ext: string)
    requires forall i :: 0 <= i < |ext| ==> ext[i] != '.'
    ensures LastDot(stem + "." + ext) == |stem|
    decreases |ext|
  {
    var s := stem + "." + ext;
    if ext == [] {
      assert s[|s| - 1] == '.';
    } else {
      var e := ext[..|ext| - 1];
      assert s[..|s| - 1] == stem + "." + e;
      LastDotOf(stem, e);
    }
  }

  /**
   * A name that starts with its only dot, like ".srt", has no suffix, so
   * `to` finds no renderer for it.
   */
  lemma HiddenName(dir: string, ext: string)
    requires forall i :: 0 <= i < |ext| ==> ext[i] != '/' && ext[i] != '.'
    ensures Suffix(dir + "/." + ext) == ""
  {
    assert dir + "/." + ext == dir + "/" + ("." + ext);
    NameOf(dir, "." + ext);
    LastDotOf("", ext);
    assert "" + "." + ext == "." + ext;
  }

  // -------------------------------------------------------------- dispatch

  /** The renderers the class offers. */
  datatype Kind = SrtKind | TxtKind | BackupKind

  /**
   * The attribute names of an `ASR` object (`dir(self)`, which sorts them)
   * that the class defines; the names it inherits from `object` all begin
   * with "__" and play no part in `to`.
   */
  const Attributes: seq<string> := [
    "Self", "__init__", "_appkey", "_client", "_data", "_path", "_request",
    "_task_id", "_time", "_url", "data", "from_backup", "polling",
    "register", "task_id", "to", "to_backup", "to_srt", "to_txt", "upload"]

  /** `getattr(self, attr)` for the attributes that are renderers. */
  function Method(attr: string): Option<Kind>
  {
    if attr == "to_srt" then Some(SrtKind)
    else if attr == "to_txt" then Some(TxtKind)
    else if attr == "to_backup" then Some(BackupKind)
    else None
  }

  /** `attr.startswith('to_')`. */
  predicate StartsWithTo(attr: string) { |attr| >= 3 && attr[0] == 't' && attr[1] == 'o' && attr[2] == '_' }

  /**
   * The mapper `{f'.{attr[3:]}': getattr(self, attr) for attr in attrs if
   * attr.startswith('to_')}`, as its entries in the order of attrs.
   */
  function Mapper(attrs: seq<string>): seq<(string, Option<Kind>)>
  {
    if attrs == [] then []
    else
      var last := attrs[|attrs| - 1];
      Mapper(attrs[..|attrs| - 1]) + if StartsWithTo(last) then [("." + last[3..], Method(last))] else []
  }

  /** The mapper at one key; of two entries with the same key the later wins, as in a dict. */
  function Lookup(key: string, mapper: seq<(string, Option<Kind>)>): Option<Option<Kind>>
  {
    if mapper == [] then None
    else if mapper[|mapper| - 1].0 == key then Some(mapper[|mapper| - 1].1)
    else Lookup(key, mapper[..|mapper| - 1])
  }

  /** The renderer `to` picks for a suffix, if any. */
  function Renderer(suffix: string): Option<Kind>
  {
    match Lookup(suffix, Mapper(Attributes))
    case Some(Some(k)) => Some(k)
    case _ => None
  }

  /** Only the names of the three renderers begin with "to_", so they are the mapper's entries. */
  lemma MapperTable()
    ensures Mapper(Attributes) == [(".backup", Some(BackupKind)), (".srt", Some(SrtKind)), (".txt", Some(TxtKind))]
  {
    var tail := ["to_backup", "to_srt", "to_txt", "upload"];
    var others := Attributes[..16];
    assert Attributes == others + tail;
    MapperOthers();
    MapperAppend(others, tail);
    MapperRenderers();
  }

  lemma MapperOthers()
    ensures Mapper(Attributes[..16]) == []
  {
    var others := Attributes[..16];
    assert forall x :: x in others ==> !StartsWithTo(x);
    MapperNone(others);
  }

  lemma MapperRenderers()
    ensures Mapper(["to_backup", "to_srt", "to_txt", "upload"])
      == [(".backup", Some(BackupKind)), (".srt", Some(SrtKind)), (".txt", Some(TxtKind))]
  {
    assert ["to_backup", "to_srt", "to_txt", "upload"] == ["to_backup"] + ["to_srt"] + ["to_txt"] + ["upload"];
    MapperAppend(["to_backup"] + ["to_srt"] + ["to_txt"], ["upload"]);
    MapperAppend(["to_backup"] + ["to_srt"], ["to_txt"]);
    MapperAppend(["to_backup"], ["to_srt"]);
    MapperEntries();
  }

  lemma MapperEntries()
    ensures Mapper(["to_backup"]) == [(".backup", Some(BackupKind))]
    ensures Mapper(["to_srt"]) == [(".srt", Some(SrtKind))]
    ensures Mapper(["to_txt"]) == [(".txt", Some(TxtKind))]
    ensures Mapper(["upload"]) == []
  {
    MapperEntry("to_backup", ".backup");
    MapperEntry("to_srt", ".srt");
    MapperEntry("to_txt", ".txt");
    MapperOne("upload");
  }

  lemma MapperEntry(name: string, key: string)
    requires StartsWithTo(name) && "." + name[3..] == key
    ensures Mapper([name]) == [(key, Method(name))]
  {
    MapperOne(name);
  }

  /** `to` picks the SRT renderer for ".srt", the TXT one for ".txt", the backup one for ".backup", and none for any other suffix. */
  lemma RendererTable(suffix: string)
    ensures Renderer(suffix) == (if suffix == ".srt" then Some(SrtKind)
      else if suffix == ".txt" then Some(TxtKind)
      else if suffix == ".backup" then Some(BackupKind) else None)
  {
    MapperTable();
    var m := [(".backup", Some(BackupKind)), (".srt", Some(SrtKind)), (".txt", Some(TxtKind))];
    assert m[..2] == [(".backup", Some(BackupKind)), (".srt", Some(SrtKind))];
    assert m[..2][..1] == [(".backup", Some(BackupKind))];
    assert m[..2][..1][..0] == [];
    assert Lookup(suffix, m) == if suffix == ".txt" then Some(Some(TxtKind)) else Lookup(suffix, m[..2]);
    assert Lookup(suffix, m[..2]) == if suffix == ".srt" then Some(Some(SrtKind)) else Lookup(suffix, m[..2][..1]);
    assert Lookup(suffix, m[..2][..1]) == if suffix == ".backup" then Some(Some(BackupKind)) else None;
  }

  lemma MapperOne(x: string)
    ensures Mapper([x]) == if StartsWithTo(x) then [("." + x[3..], Method(x))] else []
  {
    assert [x][..0] == [];
  }

  lemma {:induction false} MapperNone(attrs: seq<string>)
    requires forall x :: x in attrs ==> !StartsWithTo(x)
    ensures Mapper(attrs) == []
  {
    if attrs != [] {
      MapperNone(attrs[..|attrs| - 1]);
    }
  }

  lemma {:induction false} MapperAppend(a: seq<string>, b: seq<string>)
    ensures Mapper(a + b) == Mapper(a) + Mapper(b)
  {
    if b == [] {
      assert a + b == a;
    } else {
      MapperAppend(a, b[..|b| - 1]);
      assert (a + b)[..|a + b| - 1] == a + b[..|b| - 1];
    }
  }

  // ------------------------------------------------------------- rendering

  /** The `{url, data}` record of `to_backup`. */
  datatype Backup = Backup(url: string, data: Option<Response>)

  /** What a file holds: text, or a backup record (whose JSON text is not modelled). */
  datatype Content = Text(text: string) | Record(backup: Backup)

  /** Why `to` stops at a path. */
  datatype RenderError =
    | UnknownSuffix(suffix: string)   // KeyError from the mapper
    | NoData                          // `self._data` is None: TypeError
    | NoResult                        // the reply has no `Result`: KeyError

  /** What one renderer writes, or why it fails before writing. */
  function RenderKind(k: Kind, url: string, data: Option<Response>, ch: int): Result<Content, RenderError>
  {
    if k == BackupKind then Success(Record(Backup(url, data)))
    else if data.None? then Failure(NoData)
    else if data.value.sentences.None? then Failure(NoResult)
    else
      var s := data.value.sentences.value;
      Success(Text(if k == SrtKind then Srt(s, ch) else Txt(s, ch)))
  }

  /** What `to` writes at one path. */
  function RenderPath(path: string, url: string, data: Option<Response>, ch: int): Result<Content, RenderError>
  {
    match Renderer(Suffix(path))
    case None => Failure(UnknownSuffix(Suffix(path)))
    case Some(k) => RenderKind(k, url, data, ch)
  }

  /** The files after `to`, and the index of the path it failed at with the error, if it did. */
  datatype Run = Run(files: map<string, Content>, failure: Option<(nat, RenderError)>)

  /** Render the paths in order with render, writing each result, and stop at the first failure. */
  function Apply(files: map<string, Content>, paths: seq<string>, render: string -> Result<Content, RenderError>): Run
  {
    if paths == [] then Run(files, None)
    else
      var n := |paths| - 1;
      var before := Apply(files, paths[..n], render);
      if before.failure.Some? then before
      else match render(paths[n])
        case Failure(e) => Run(before.files, Some((n, e)))
        case Success(c) => Run(before.files[paths[n] := c], None)
  }

  /** `to` over paths, in argument order, stopping at the first path that fails. */
  function RenderAll(files: map<string, Content>, paths: seq<string>, url: string, data: Option<Response>, ch: int): Run
  {
    Apply(files, paths, p => RenderPath(p, url, data, ch))
  }

  /** `to` renders one more path unless it has already failed. */
  lemma RenderAllStep(files: map<string, Content>, paths: seq<string>, i: nat, url: string, data: Option<Response>, ch: int)
    requires i < |paths|
    ensures var before := RenderAll(files, paths[..i], url, data, ch);
      RenderAll(files, paths[..i + 1], url, data, ch) ==
        if before.failure.Some? then before
        else match RenderPath(paths[i], url, data, ch)
          case Failure(e) => Run(before.files, Some((i, e)))
          case Success(c) => Run(before.files[paths[i] := c], None)
  {
    assert paths[..i + 1][..i] == paths[..i];
  }

  /** Once `to` has failed, the later paths change nothing. */
  lemma RenderAllStop(files: map<string, Content>, paths: seq<string>, i: nat, url: string, data: Option<Response>, ch: int)
    requires i <= |paths|
    requires RenderAll(files, paths[..i], url, data, ch).failure.Some?
    ensures RenderAll(files, paths, url, data, ch) == RenderAll(files, paths[..i], url, data, ch)
  {
    ApplyStop(files, paths, p => RenderPath(p, url, data, ch), i, |paths|);
    assert paths[..|paths|] == paths;
  }

  /** Once a run has failed, the later paths change nothing. */
  lemma {:induction false} ApplyStop(files: map<string, Content>, paths: seq<string>, render: string -> Result<Content, RenderError>, i: nat, j: nat)
    requires i <= j <= |paths|
    requires Apply(files, paths[..i], render).failure.Some?
    ensures Apply(files, paths[..j], render) == Apply(files, paths[..i], render)
    decreases j
  {
    if j > i {
      ApplyStop(files, paths, render, i, j - 1);
      assert paths[..j][..j - 1] == paths[..j - 1];
    }
  }

  /** A run fails exactly when some path fails, and then at the first one, with its error. */
  lemma {:induction false} ApplyFailure(files: map<string, Content>, paths: seq<string>, render: string -> Result<Content, RenderError>)
    ensures var r := Apply(files, paths, render);
      (r.failure.None? <==> forall j :: 0 <= j < |paths| ==> render(paths[j]).Success?)
      && (r.failure.Some? ==>
        var i := r.failure.value.0;
        i < |paths| && render(paths[i]) == Failure(r.failure.value.1)
        && forall j :: 0 <= j < i ==> render(paths[j]).Success?)
  {
    if paths != [] {
      var n := |paths| - 1;
      ApplyFailure(files, paths[..n], render);
      assert forall j :: 0 <= j < n ==> paths[..n][j] == paths[j];
    }
  }

  /**
   * Each path a run reached holds what render gives for it; every other file
   * is as it was.
   */
  lemma {:induction false} ApplyFiles(files: map<string, Content>, paths: seq<string>, render: string -> Result<Content, RenderError>)
    ensures var r := Apply(files, paths, render);
      var done := if r.failure.Some? then r.failure.value.0 else |paths|;
      done <= |paths|
      && (forall j :: 0 <= j < done ==> paths[j] in r.files && render(paths[j]) == Success(r.files[paths[j]]))
      && (forall q :: q in r.files <==> q in files || q in paths[..done])
      && (forall q :: q in files && q !in paths[..done] ==> r.files[q] == files[q])
  {
    if paths != [] {
      var n := |paths| - 1;
      ApplyFiles(files, paths[..n], render);
      ApplyFailure(files, paths[..n], render);
      var before := Apply(files, paths[..n], render);
      if before.failure.Some? {
        assert paths[..before.failure.value.0] == paths[..n][..before.failure.value.0];
      } else {
        assert paths[..|paths|] == paths[..n] + [paths[n]];
      }
    }
  }

  /** `to` fails exactly at the first path whose renderer fails, with that renderer's error. */
  lemma RenderAllFailure(files: map<string, Content>, paths: seq<string>, url: string, data: Option<Response>, ch: int)
    ensures var r := RenderAll(files, paths, url, data, ch);
      (r.failure.None? <==> forall j :: 0 <= j < |paths| ==> RenderPath(paths[j], url, data, ch).Success?)
      && (r.failure.Some? ==>
        var i := r.failure.value.0;
        i < |paths| && RenderPath(paths[i], url, data, ch) == Failure(r.failure.value.1)
        && forall j :: 0 <= j < i ==> RenderPath(paths[j], url, data, ch).Success?)
  {
    ApplyFailure(files, paths, p => RenderPath(p, url, data, ch));
  }

  /**
   * After `to`, each path it reached holds what its renderer gives, and every
   * other file is as it was.
   */
  lemma RenderAllFiles(files: map<string, Content>, paths: seq<string>, url: string, data: Option<Response>, ch: int)
    ensures var r := RenderAll(files, paths, url, data, ch);
      var done := if r.failure.Some? then r.failure.value.0 else |paths|;
      done <= |paths|
      && (forall j :: 0 <= j < done ==> paths[j] in r.files && RenderPath(paths[j], url, data, ch) == Success(r.files[paths[j]]))
      && (forall q :: q in r.files <==> q in files || q in paths[..done])
      && (forall q :: q in files && q !in paths[..done] ==> r.files[q] == files[q])
  {
    ApplyFiles(files, paths, p => RenderPath(p, url, data, ch));
  }

  /** A path with an unknown suffix fails `to` there, and nothing is written for it. */
  lemma UnknownSuffixFails(files: map<string, Content>, path: string, url: string, data: Option<Response>, ch: int)
    requires Suffix(path) != ".srt" && Suffix(path) != ".txt" && Suffix(path) != ".backup"
    ensures RenderAll(files, [path], url, data, ch) == Run(files, Some((0, UnknownSuffix(Suffix(path)))))
  {
    RendererTable(Suffix(path));
    assert RenderPath(path, url, data, ch) == Failure(UnknownSuffix(Suffix(path)));
    RenderAllStep(files, [path], 0, url, data, ch);
    assert [path][..0] == [] && [path][..1] == [path];
  }
}
