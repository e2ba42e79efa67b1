/**
 * The `Icon` component of `frontend/components/UI/icon.tsx`: a kebab-case
 * icon name becomes the PascalCase key of the icon table
 * (`name.split("-").map(w => w.charAt(0).toUpperCase() + w.slice(1)).join("")`),
 * and the component renders that entry or nothing. Case mapping is ASCII only.
 */
module Icon {
  import opened Wrappers
  import opened Strings

  const DEFAULT_SIZE := 24
  const DEFAULT_STROKE_WIDTH := 2

  /** `toUpperCase` on one character, ASCII letters only. */
  function Upper(c: char): (u: char)
    ensures 'a' <= c <= 'z' ==> u as int == c as int - 32
    ensures !('a' <= c <= 'z') ==> u == c
    ensures !('a' <= u <= 'z')
    ensures u == '-' <==> c == '-'
  {
    if 'a' <= c <= 'z' then (c as int - 32) as char else c
  }

  /** `w.charAt(0).toUpperCase() + w.slice(1)`; the empty word stays empty. */
  function Capitalize(word: string): (r: string)
    ensures |r| == |word|
    ensures r != [] ==> r[0] == Upper(word[0]) && r[1..] == word[1..]
  {
    if word == [] then [] else [Upper(word[0])] + word[1..]
  }

  /** `.map(...)` over the pieces. */
  function CapitalizeAll(words: seq<string>): (r: seq<string>)
    ensures |r| == |words|
    ensures forall i :: 0 <= i < |words| ==> r[i] == Capitalize(words[i])
  {
    if words == [] then [] else [Capitalize(words[0])] + CapitalizeAll(words[1..])
  }

  /** The key `Icon` looks up for `name`; a name without hyphens only has
      its first character changed (the empty name gives the empty string). */
  function PascalName(name: string): (key: string)
    ensures '-' !in name ==> key == Capitalize(name)
  {
    assert '-' !in name ==> Concat(CapitalizeAll(Split(name, '-'))) == Capitalize(name) by {
      if '-' !in name {
        SplitWithoutSeparator(name, '-');
        assert CapitalizeAll([name]) == [Capitalize(name)];
        assert Concat([Capitalize(name)]) == Capitalize(name) + Concat([]);
      }
    }
    Concat(CapitalizeAll(Split(name, '-')))
  }

  /** The position of the first occurrence of `c`. */
  function IndexOf(s: string, c: char): (k: nat)
    requires c in s
    ensures k < |s| && s[k] == c && c !in s[..k]
  {
    if s[0] == c then 0
    else
      assert c in s[1..] by { assert s == [s[0]] + s[1..]; }
      var k := IndexOf(s[1..], c) + 1;
      assert s[..k] == [s[0]] + s[1..][..k - 1];
      k
  }

  lemma {:induction false} CapitalizeAllAppend(xs: seq<string>, ys: seq<string>)
    ensures CapitalizeAll(xs + ys) == CapitalizeAll(xs) + CapitalizeAll(ys)
  {
  }

  /** Each hyphen-separated segment is converted on its own and the hyphen
      dropped: only segment starts change, everything else keeps its order. */
  lemma {:induction false} PascalNameAppend(a: string, b: string)
    ensures PascalName(a + "-" + b) == PascalName(a) + PascalName(b)
  {
    assert a + "-" + b == a + ['-'] + b;
    SplitAppend(a, b, '-');
    CapitalizeAllAppend(Split(a, '-'), Split(b, '-'));
    ConcatAppend(CapitalizeAll(Split(a, '-')), CapitalizeAll(Split(b, '-')));
  }

  /** A name with a hyphen is its first segment, the hyphen, and the rest. */
  lemma {:induction false} AtFirstHyphen(name: string) returns (a: string, b: string)
    requires '-' in name
    ensures name == a + "-" + b && '-' !in a && |b| < |name|
  {
    var k := IndexOf(name, '-');
    a, b := name[..k], name[k + 1..];
    assert name == name[..k] + [name[k]] + name[k + 1..];
  }

  /** The converted name has no hyphen, and its length is the input's length
      less the number of hyphens. */
  lemma {:induction false} PascalNameShape(name: string)
    ensures '-' !in PascalName(name)
    ensures |PascalName(name)| == |name| - multiset(name)['-']
    decreases |name|
  {
    if '-' !in name {
      assert multiset(name)['-'] == 0;
      if name != [] {
        assert Capitalize(name) == [Upper(name[0])] + name[1..];
      }
    } else {
      var a, b := AtFirstHyphen(name);
      PascalNameAppend(a, b);
      PascalNameShape(b);
      if a != [] {
        assert Capitalize(a) == [Upper(a[0])] + a[1..];
      }
      assert multiset(a)['-'] == 0;
      assert multiset(name) == multiset(a) + multiset{'-'} + multiset(b);
    }
  }

  /** The first character of a converted name is already upper case. */
  lemma {:induction false} PascalNameLeadsUpper(name: string)
    ensures PascalName(name) == [] || Upper(PascalName(name)[0]) == PascalName(name)[0]
    decreases |name|
  {
    if '-' !in name {
    } else {
      var a, b := AtFirstHyphen(name);
      PascalNameAppend(a, b);
      PascalNameLeadsUpper(b);
    }
  }

  /** Converting an already converted name changes nothing. */
  lemma {:induction false} PascalNameIdempotent(name: string)
    ensures PascalName(PascalName(name)) == PascalName(name)
  {
    var p := PascalName(name);
    PascalNameShape(name);
    PascalNameLeadsUpper(name);
    if p != [] {
      assert Capitalize(p) == [Upper(p[0])] + p[1..];
      assert p == [p[0]] + p[1..];
    }
  }

  /** What `Icon` renders: the table entry with its size, stroke width and class. */
  datatype Element<C> = Element(component: C, size: int, strokeWidth: int, className: Option<string>)

  /** `Icon({ name, size = 24, className, strokeWidth = 2 })`: null when the
      converted name is not a key of the table. `cn` is not part of this
      model; the class name is passed on as given. */
  function Render<C>(icons: map<string, C>, name: string, size: Option<int>, className: Option<string>,
                     strokeWidth: Option<int>): (r: Option<Element<C>>)
    ensures r.None? <==> PascalName(name) !in icons
    ensures r.Some? ==> r.value.component == icons[PascalName(name)]
    ensures r.Some? ==> r.value.size == (if size.Some? then size.value else DEFAULT_SIZE)
    ensures r.Some? ==> r.value.strokeWidth == (if strokeWidth.Some? then strokeWidth.value else DEFAULT_STROKE_WIDTH)
  {
    var key := PascalName(name);
    if key !in icons then None
    else Some(Element(icons[key], size.GetOr(DEFAULT_SIZE), strokeWidth.GetOr(DEFAULT_STROKE_WIDTH), className))
  }

  /** A kebab-case name and its PascalCase form render the same icon. */
  lemma {:induction false} RenderPascalName<C>(icons: map<string, C>, name: string, size: Option<int>,
                                                className: Option<string>, strokeWidth: Option<int>)
    ensures Render(icons, PascalName(name), size, className, strokeWidth) == Render(icons, name, size, className, strokeWidth)
  {
    PascalNameIdempotent(name);
  }
}
