/** Folder paths as text (backend/internal/documentsvc/ecm.go:34-43, 97-117):
    trimming, splitting at slashes, and joining. Characters are Unicode scalars. */
module Paths {
  import opened Text

  datatype Error = NotFound | Validation | Conflict

  datatype Outcome<+T> = Done(value: T) | Failed(error: Error) {
    predicate IsFailure() {
      Failed?
    }
    function PropagateFailure<U>(): Outcome<U>
      requires Failed?
    {
      Failed(error)
    }
    function Extract(): T
      requires Done?
    {
      value
    }
  }

  /** `unicode.IsSpace`. */
  predicate IsSpace(c: char) {
    || '\t' <= c <= '\r' || c == ' ' || c == '\U{85}' || c == '\U{A0}' || c == '\U{1680}'
    || '\U{2000}' <= c <= '\U{200A}' || c == '\U{2028}' || c == '\U{2029}' || c == '\U{202F}'
    || c == '\U{205F}' || c == '\U{3000}'
  }

  /** The number of bytes UTF-8 needs, which is what Go's len counts. */
  function ByteLength(s: string): nat {
    if s == "" then 0
    else
      var c := s[0] as int;
      ByteLength(s[1..]) + (if c < 0x80 then 1 else if c < 0x800 then 2 else if c < 0x10000 then 3 else 4)
  }

  /** The characters a trim removes: slashes, or blanks. */
  datatype Cutset = Slashes | Blanks

  predicate Cut(cut: Cutset, c: char) {
    if cut.Slashes? then c == '/' else IsSpace(c)
  }

  function TrimLeft(s: string, cut: Cutset): string {
    if s != "" && Cut(cut, s[0]) then TrimLeft(s[1..], cut) else s
  }

  function TrimRight(s: string, cut: Cutset): string {
    if s != "" && Cut(cut, s[|s| - 1]) then TrimRight(s[..|s| - 1], cut) else s
  }

  function Trim(s: string, cut: Cutset): string {
    TrimRight(TrimLeft(s, cut), cut)
  }

  function TrimSpace(s: string): string {
    Trim(s, Blanks)
  }

  /** The text neither starts nor ends with a character of the cutset. */
  predicate Trimmed(s: string, cut: Cutset) {
    s != "" ==> !Cut(cut, s[0]) && !Cut(cut, s[|s| - 1])
  }

  lemma {:induction false} TrimLeftStarts(s: string, cut: Cutset)
    ensures TrimLeft(s, cut) != "" ==> !Cut(cut, TrimLeft(s, cut)[0])
  {
    if s != "" && Cut(cut, s[0]) {
      TrimLeftStarts(s[1..], cut);
    }
  }

  lemma {:induction false} TrimRightEnds(s: string, cut: Cutset)
    ensures var t := TrimRight(s, cut); t != "" ==> s != "" && t[0] == s[0] && !Cut(cut, t[|t| - 1])
  {
    if s != "" && Cut(cut, s[|s| - 1]) {
      TrimRightEnds(s[..|s| - 1], cut);
    }
  }

  lemma TrimTrims(s: string, cut: Cutset)
    ensures Trimmed(Trim(s, cut), cut)
  {
    TrimLeftStarts(s, cut);
    TrimRightEnds(TrimLeft(s, cut), cut);
  }

  /** Trimming leaves alone exactly the trimmed texts. */
  lemma TrimIdentity(s: string, cut: Cutset)
    ensures Trim(s, cut) == s <==> Trimmed(s, cut)
  {
    TrimTrims(s, cut);
  }

  /** `strings.Split(s, "/")`. */
  function SplitSlash(s: string): (parts: seq<string>)
    ensures |parts| > 0
    ensures forall i :: 0 <= i < |parts| ==> '/' !in parts[i]
  {
    var k := IndexOf(s, '/');
    if k == |s| then [s] else [s[..k]] + SplitSlash(s[k + 1..])
  }

  /** `strings.Join(segs, "/")`. */
  function Join(segs: seq<string>): string {
    if |segs| == 0 then "" else if |segs| == 1 then segs[0] else segs[0] + "/" + Join(segs[1..])
  }

  lemma SlashIndexOf(a: string, rest: string)
    requires '/' !in a
    ensures IndexOf(a + "/" + rest, '/') == |a|
    ensures IndexOf(a, '/') == |a|
  {
    assert (a + "/" + rest)[..|a|] == a && a[..|a|] == a;
    IndexOfIs(a + "/" + rest, '/', |a|);
    IndexOfIs(a, '/', |a|);
  }

  predicate NoSlashes(segs: seq<string>) {
    forall i :: 0 <= i < |segs| ==> '/' !in segs[i]
  }

  /** Splitting undoes joining. */
  lemma {:induction false} SplitJoin(segs: seq<string>)
    requires |segs| > 0 && NoSlashes(segs)
    ensures SplitSlash(Join(segs)) == segs
  {
    if |segs| == 1 {
      SlashIndexOf(segs[0], "");
    } else {
      var rest := Join(segs[1..]);
      SlashIndexOf(segs[0], rest);
      var s := segs[0] + "/" + rest;
      assert s[..|segs[0]|] == segs[0] && s[|segs[0]| + 1..] == rest;
      SplitJoin(segs[1..]);
    }
  }

  /** Folder.Validate (ecm.go:35-43). */
  predicate ValidName(name: string) {
    name != "" && '/' !in name && name != "." && name != ".." && ByteLength(name) <= 255
  }

  /** Names the service stores: valid and without outer blanks. */
  predicate CleanName(name: string) {
    ValidName(name) && TrimSpace(name) == name
  }

  predicate CleanNames(segs: seq<string>) {
    forall i :: 0 <= i < |segs| ==> CleanName(segs[i])
  }

  function CheckSegments(raw: seq<string>): (r: Outcome<seq<string>>)
    ensures r.Done? ==> |r.value| == |raw|
  {
    if raw == [] then Done([])
    else
      var seg := TrimSpace(raw[0]);
      if !ValidName(seg) then Failed(Validation)
      else
        var rest :- CheckSegments(raw[1..]);
        Done([seg] + rest)
  }

  lemma {:induction false} CheckedAreClean(raw: seq<string>)
    requires CheckSegments(raw).Done?
    ensures CleanNames(CheckSegments(raw).value)
  {
    if raw != [] {
      CheckedAreClean(raw[1..]);
      TrimTrims(raw[0], Blanks);
      TrimIdentity(TrimSpace(raw[0]), Blanks);
      hide ValidName, CheckSegments;
      assert forall x: string, rest: seq<string> :: CleanName(x) && CleanNames(rest) ==> CleanNames([x] + rest);
    }
  }

  /** The segments a path names. */
  function PathSegments(p: string): Outcome<seq<string>> {
    var t := TrimSpace(p);
    if t == "" || t == "/" then Done([]) else CheckSegments(SplitSlash(Trim(t, Slashes)))
  }

  lemma SegmentsAreClean(p: string)
    requires PathSegments(p).Done?
    ensures CleanNames(PathSegments(p).value)
  {
    var t := TrimSpace(p);
    if t != "" && t != "/" {
      CheckedAreClean(SplitSlash(Trim(t, Slashes)));
    }
  }

  lemma {:induction false} CheckSegmentsStep(raw: seq<string>, i: nat)
    requires i < |raw| && CheckSegments(raw[..i]).Done?
    ensures CheckSegments(raw[..i + 1]) ==
              if ValidName(TrimSpace(raw[i])) then Done(CheckSegments(raw[..i]).value + [TrimSpace(raw[i])])
              else Failed(Validation)
    ensures !ValidName(TrimSpace(raw[i])) ==> CheckSegments(raw) == Failed(Validation)
    decreases |raw|
  {
    if i > 0 {
      assert raw[..i][1..] == raw[1..][..i - 1] && raw[..i + 1][1..] == raw[1..][..i];
      CheckSegmentsStep(raw[1..], i - 1);
      var rest, x := CheckSegments(raw[1..][..i - 1]).value, TrimSpace(raw[i]);
      assert [TrimSpace(raw[0])] + (rest + [x]) == [TrimSpace(raw[0])] + rest + [x];
    } else {
      assert raw[..1] == [raw[0]] && raw[..1][1..] == [] && raw[..0] == [];
      assert CheckSegments([]) == Done([]);
      var seg := TrimSpace(raw[0]);
      assert [seg] + [] == [] + [seg];
    }
  }

  /** SplitPath (ecm.go:99-117). */
  method SplitPath(path: string) returns (r: Outcome<seq<string>>)
    ensures r == PathSegments(path)
  {
    var p := TrimSpace(path);
    if p == "" || p == "/" {
      return Done([]);
    }
    var raw := SplitSlash(Trim(p, Slashes));
    var out := [];
    assert raw[..0] == [] && CheckSegments([]) == Done([]);
    hide TrimSpace, SplitSlash, ByteLength, CheckSegments;
    for i := 0 to |raw|
      invariant CheckSegments(raw[..i]) == Done(out)
    {
      var seg := TrimSpace(raw[i]);
      CheckSegmentsStep(raw, i);
      if seg == "" || seg == "." || seg == ".." || '/' in seg {
        return Failed(Validation);
      }
      if ByteLength(seg) > 255 {
        return Failed(Validation);
      }
      out := out + [seg];
    }
    assert raw[..|raw|] == raw;
    r := Done(out);
  }

  /** The text of a path of segments, as FolderPath renders it. */
  function PathText(segs: seq<string>): string {
    "/" + Join(segs)
  }

  lemma {:induction false} CheckClean(segs: seq<string>)
    requires CleanNames(segs)
    ensures CheckSegments(segs) == Done(segs)
  {
    if segs != [] {
      assert CleanName(segs[0]);
      hide CleanName, ValidName, TrimSpace;
      CheckClean(segs[1..]);
      CheckClean1(segs);
    }
  }

  lemma CheckClean1(segs: seq<string>)
    requires segs != [] && CleanName(segs[0]) && CheckSegments(segs[1..]) == Done(segs[1..])
    ensures CheckSegments(segs) == Done(segs)
  {
    assert segs == [segs[0]] + segs[1..];
  }

  /** A joined path ends with the last character of its last segment. */
  lemma {:induction false} JoinEnds(segs: seq<string>)
    requires |segs| > 0 && NonEmpty(segs)
    ensures Join(segs) != "" && Join(segs)[0] == segs[0][0]
    ensures var last := segs[|segs| - 1]; Join(segs)[|Join(segs)| - 1] == last[|last| - 1]
  {
    if |segs| > 1 {
      JoinEnds(segs[1..]);
    }
  }

  /** Reading a rendered path gives its segments back. */
  lemma SegmentsOfText(segs: seq<string>)
    requires CleanNames(segs)
    ensures PathSegments(PathText(segs)) == Done(segs)
  {
    if segs == [] {
      TrimIdentity("/", Blanks);
    } else {
      assert CleanName(segs[0]) && CleanName(segs[|segs| - 1]);
      CleanEnds(segs[0]);
      CleanEnds(segs[|segs| - 1]);
      PlainNames(segs);
      CheckClean(segs);
      JoinEnds(segs);
      SplitJoin(segs);
      hide CleanNames, CleanName, ValidName, Join, CheckSegments, SplitSlash, Trim, TrimSpace;
      TextTrims(Join(segs));
    }
  }

  /** The two trimming steps of SplitPath strip just the leading slash of "/" + j. */
  lemma TextTrims(j: string)
    requires j != "" && j[0] != '/' && j[|j| - 1] != '/' && !IsSpace(j[|j| - 1])
    ensures TrimSpace("/" + j) == "/" + j && Trim("/" + j, Slashes) == j
  {
    var t := "/" + j;
    TrimIdentity(t, Blanks);
    TrimIdentity(j, Slashes);
    assert t[0] == '/' && t[1..] == j;
    assert TrimLeft(t, Slashes) == TrimLeft(j, Slashes);
  }

  /** The outer characters of a clean name are neither blanks nor slashes. */
  lemma CleanEnds(name: string)
    requires CleanName(name)
    ensures name != "" && name[0] != '/' && name[|name| - 1] != '/' && !IsSpace(name[|name| - 1])
  {
    TrimIdentity(name, Blanks);
    assert name[0] in name && name[|name| - 1] in name;
  }

  predicate NonEmpty(segs: seq<string>) {
    forall i :: 0 <= i < |segs| ==> segs[i] != ""
  }

  lemma PlainNames(segs: seq<string>)
    requires CleanNames(segs)
    ensures NoSlashes(segs) && NonEmpty(segs)
  {
    forall i | 0 <= i < |segs|
      ensures segs[i] != "" && '/' !in segs[i]
    {
      assert CleanName(segs[i]);
    }
  }

  /** Different clean segment lists have different texts. */
  lemma PathTextInjective(a: seq<string>, b: seq<string>)
    requires CleanNames(a) && CleanNames(b) && PathText(a) == PathText(b)
    ensures a == b
  {
    SegmentsOfText(a);
    SegmentsOfText(b);
  }
}
