/**
 * The route names the controller gives the router: the group a controller
 * is mounted under, the `action` parameter of each route, and the methods
 * whose path segment is left empty.
 */
module RouteNames {
  import opened Text

  /** A character of a type name in a group path: a capital becomes `/` and its lower-case form. */
  function CharRoute(c: char): string {
    if IsUpper(c) then ['/', Lower(c)] else [c]
  }

  /** The group path of a model type: `UserInfo` becomes `/user/info`. */
  function SlashLower(name: string): string
    decreases |name|
  {
    if name == [] then [] else CharRoute(name[0]) + SlashLower(name[1..])
  }

  lemma {:induction false} SlashLowerAppend(a: string, c: char)
    ensures SlashLower(a + [c]) == SlashLower(a) + CharRoute(c)
    decreases |a|
  {
    if a == [] {
      assert [c][1..] == [];
    } else {
      assert (a + [c])[0] == a[0] && (a + [c])[1..] == a[1..] + [c];
      SlashLowerAppend(a[1..], c);
    }
  }

  /** ASCII upper-casing of a lower-case letter. */
  function Upper(c: char): char
    requires 'a' <= c <= 'z'
  {
    (c as int - 0x20) as char
  }

  /** Reads a group path back into a type name: `/` and a lower-case letter become the capital. */
  function Unslash(r: string): string
    decreases |r|
  {
    if r == [] then []
    else if |r| >= 2 && r[0] == '/' && 'a' <= r[1] <= 'z' then [Upper(r[1])] + Unslash(r[2..])
    else [r[0]] + Unslash(r[1..])
  }

  /** A type name without `/` is recovered from its group path. */
  lemma {:induction false} SlashLowerRoundTrip(name: string)
    requires '/' !in name
    ensures Unslash(SlashLower(name)) == name
    decreases |name|
  {
    if name != [] {
      var rest := SlashLower(name[1..]);
      assert '/' !in name[1..] by {
        assert forall i :: 0 <= i < |name[1..]| ==> name[1..][i] == name[i + 1];
      }
      SlashLowerRoundTrip(name[1..]);
      var r := CharRoute(name[0]) + rest;
      if IsUpper(name[0]) {
        assert r[0] == '/' && r[1] == Lower(name[0]) && r[2..] == rest;
      } else {
        assert r[0] == name[0] && r[1..] == rest;
      }
      assert [name[0]] + name[1..] == name;
    }
  }

  /** No ASCII capital is left in a group path. */
  lemma {:induction false} SlashLowerHasNoCapital(name: string)
    ensures forall i :: 0 <= i < |SlashLower(name)| ==> !IsUpper(SlashLower(name)[i])
    decreases |name|
  {
    if name != [] {
      SlashLowerHasNoCapital(name[1..]);
      var r := SlashLower(name);
      var head := CharRoute(name[0]);
      forall i | 0 <= i < |r| ensures !IsUpper(r[i]) {
        if i >= |head| {
          assert r[i] == SlashLower(name[1..])[i - |head|];
        }
      }
    }
  }

  /** `name[:len(name)-10]` when the name ends in `Controller` or `controller`. */
  function TrimControllerSuffix(name: string): (base: string)
    ensures HasSuffix(name, "Controller") || HasSuffix(name, "controller") ==>
      |base| + 10 == |name| && HasPrefix(name, base)
    ensures !(HasSuffix(name, "Controller") || HasSuffix(name, "controller")) ==> base == name
  {
    if HasSuffix(name, "Controller") || HasSuffix(name, "controller") then name[..|name| - 10] else name
  }

  /**
   * The group of a controller: for the generic controller itself, the group
   * path of its model type; for any other name, the name without a
   * `Controller` suffix, lower-cased.
   */
  function GroupName(modelTypeName: string, name: string): (group: string)
    ensures forall i :: 0 <= i < |group| ==> !IsUpper(group[i])
    ensures name != "GormController" ==> |group| == |TrimControllerSuffix(name)|
  {
    if name == "GormController" then
      SlashLowerHasNoCapital(modelTypeName);
      SlashLower(modelTypeName)
    else LowerAscii(TrimControllerSuffix(name))
  }

  lemma GroupNameExamples()
    ensures GroupName("UserInfo", "GormController") == "/user/info"
    ensures GroupName("User", "UserController") == "user"
  {
    SlashLowerExample();
    assert HasSuffix("UserController", "Controller");
    assert "UserController"[..4] == "User";
  }

  lemma SlashLowerExample()
    ensures SlashLower("UserInfo") == "/user/info"
  {
    var n := "UserInfo";
    assert n[1..] == "serInfo" && n[2..] == "erInfo" && n[3..] == "rInfo" && n[4..] == "Info";
    assert n[5..] == "nfo" && n[6..] == "fo" && n[7..] == "o" && n[8..] == "";
    assert SlashLower("Info") == "/info";
    assert SlashLower("UserInfo") == "/user/info";
  }

  /** The text after the last `/` of a package path, or the whole path when it has none. */
  function LastSegment(pkg: string): (seg: string)
    ensures HasSuffix(pkg, seg) && '/' !in seg
    ensures |seg| < |pkg| ==> pkg[|pkg| - |seg| - 1] == '/'
    decreases |pkg|
  {
    if pkg == [] || pkg[|pkg| - 1] == '/' then []
    else LastSegment(pkg[..|pkg| - 1]) + [pkg[|pkg| - 1]]
  }

  /** The handler name without a `Controller` suffix (only the capitalised spelling is trimmed here). */
  function ActionName(name: string): (base: string)
    ensures HasSuffix(name, "Controller") ==> base + "Controller" == name
    ensures !HasSuffix(name, "Controller") ==> base == name
  {
    if HasSuffix(name, "Controller") then name[..|name| - 10] else name
  }

  /** `ControllerParam(pkg, name, verb)`: the `action` route parameter `pkg:name:verb`. */
  function ControllerParam(pkg: string, name: string, verb: string): (param: string)
    ensures HasPrefix(param, "action=") && HasSuffix(param, ":" + verb)
  {
    var r := "action=" + LastSegment(pkg) + ":" + ActionName(name) + ":" + verb;
    assert r[..7] == "action=";
    assert r[|r| - |":" + verb|..] == ":" + verb;
    r
  }

  /**
   * When the three parts hold no colon, the parameter splits back at `:`
   * into the package's last segment (after `action=`), the trimmed name and
   * the method.
   */
  lemma ControllerParamParts(pkg: string, name: string, verb: string)
    requires ':' !in LastSegment(pkg) && ':' !in ActionName(name) && ':' !in verb
    ensures Split(ControllerParam(pkg, name, verb), ':') ==
      ["action=" + LastSegment(pkg), ActionName(name), verb]
  {
    var seg, base := LastSegment(pkg), ActionName(name);
    ActionPrefixHasNoColon(seg);
    SplitThree("action=" + seg, base, verb, ':');
    assert ControllerParam(pkg, name, verb) == ("action=" + seg) + [':'] + (base + [':'] + verb);
  }

  lemma ActionPrefixHasNoColon(seg: string)
    requires ':' !in seg
    ensures ':' !in "action=" + seg
  {
    var s := "action=" + seg;
    forall i | 0 <= i < |s| ensures s[i] != ':' {
      if i >= 7 {
        assert s[i] == seg[i - 7];
      }
    }
  }

  /** `ControllerRoute()`: Get and Post are mounted on the group path itself. */
  function ControllerRoute(): (routes: map<string, string>)
    ensures routes.Keys == {"Get", "Post"}
    ensures forall m :: m in routes ==> routes[m] == ""
  {
    map["Get" := "", "Post" := ""]
  }
}
