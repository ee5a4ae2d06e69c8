/** The text `exportUserData` renders for a user's record. */
module Report {
  import opened Decimal
  import opened Progress

  /** `【username的奖品记录】`: one line that gives the user's name back. */
  function Header(username: string): (h: string)
    ensures |h| == |username| + 8 && h[1..|username| + 1] == username && h[|h| - 1] == '\n'
  {
    "【" + username + "的奖品记录】\n"
  }

  const InventoryTitle := "完整奖品：\n"

  const FragmentTitle := "\n碎片收集进度：\n"

  /** `- name: N个`: one line from which the name and the count read back. */
  function ItemLine(it: Item): (l: string)
    ensures |l| >= |it.name| + 7 && l[2..|it.name| + 2] == it.name && l[|l| - 1] == '\n'
    ensures forall k :: |it.name| + 4 <= k < |l| - 2 ==> IsDigit(l[k])
    ensures ParseNat(l[|it.name| + 4..|l| - 2]) == it.count
  {
    var digits, head := NatToString(it.count), "- " + it.name + ": ";
    var l := head + digits + "个\n";
    assert head[2..|it.name| + 2] == it.name;
    assert l[..|head|] == head && l[|head|..|l| - 2] == digits;
    ParseNatToString(it.count);
    l
  }

  /** `- name: 当前c/r，已合成k次`: one line from which the name, `current`,
      `required` and `completedSets` read back. */
  function FragmentLine(f: Fragment): (l: string)
    ensures |l| > |f.name| + 2 && l[2..|f.name| + 2] == f.name && l[|l| - 1] == '\n'
    ensures exists c, r, k ::
              && l == "- " + f.name + ": 当前" + c + "/" + r + "，已合成" + k + "次\n"
              && ReadsAs(c, f.current) && ReadsAsInt(r, f.required) && ReadsAs(k, f.completedSets)
  {
    var c, r, k := NatToString(f.current), IntToString(f.required), NatToString(f.completedSets);
    NatReadsBack(f.current);
    IntReadsBack(f.required);
    NatReadsBack(f.completedSets);
    var head := "- " + f.name + ": 当前";
    var l := head + c + "/" + r + "，已合成" + k + "次\n";
    assert head[2..|f.name| + 2] == f.name;
    assert l[..|head|] == head;
    l
  }

  /** `当前转盘：第W轮，已转动S次`, after a blank line: the wheel number and the
      spin count read back from it. */
  function StatusLine(rec: UserRecord): (l: string)
    ensures |l| >= 2 && l[0] == '\n' && l[|l| - 1] == '\n'
    ensures exists w, n ::
              && l == "\n当前转盘：第" + w + "轮，已转动" + n + "次\n"
              && ReadsAsInt(w, rec.currentWheel) && ReadsAs(n, rec.spinsCompleted)
  {
    var w, n := IntToString(rec.currentWheel), NatToString(rec.spinsCompleted);
    IntReadsBack(rec.currentWheel);
    NatReadsBack(rec.spinsCompleted);
    "\n当前转盘：第" + w + "轮，已转动" + n + "次\n"
  }

  /** The lines `render` gives for the entries, in the order of the entries, as
      a `forEach` that appends one line per entry builds them. */
  function Lines<T>(entries: seq<T>, render: T -> string): string {
    if entries == [] then "" else Lines(entries[..|entries| - 1], render) + render(entries[|entries| - 1])
  }

  /** The inventory lines under their title, then the fragment lines under theirs. */
  function Listing(rec: UserRecord): string {
    InventoryTitle + Lines(rec.inventory, ItemLine) + FragmentTitle + Lines(rec.fragments, FragmentLine)
  }

  /** The whole report of `username`, whose record is `rec`. */
  function UserReport(username: string, rec: UserRecord): string {
    Header(username) + Listing(rec) + StatusLine(rec)
  }

  /** The report assembled piece by piece regroups as header, listing, status. */
  lemma Regroup(a: string, b: string, c: string, d: string, e: string, f: string)
    ensures ((((a + b) + c) + d) + e) + f == (a + (((b + c) + d) + e)) + f
  {
  }

  /** The lines of two runs of entries are the lines of the first run followed by those of the second. */
  lemma {:induction false} LinesAppend<T>(a: seq<T>, b: seq<T>, render: T -> string)
    ensures Lines(a + b, render) == Lines(a, render) + Lines(b, render)
    decreases |b|
  {
    if b == [] {
      assert a + b == a;
    } else {
      var front, last := b[..|b| - 1], b[|b| - 1];
      assert (a + b)[..|a + b| - 1] == a + front;
      calc {
        Lines(a + b, render);
        Lines(a + front, render) + render(last);
        { LinesAppend(a, front, render); }
        (Lines(a, render) + Lines(front, render)) + render(last);
        Lines(a, render) + (Lines(front, render) + render(last));
        Lines(a, render) + Lines(b, render);
      }
    }
  }

  /** One line per entry, in entry order: the line of entry `i` stands between
      the lines of the entries before it and those after it. */
  lemma LineAt<T>(entries: seq<T>, render: T -> string, i: nat)
    requires i < |entries|
    ensures Lines(entries, render) == Lines(entries[..i], render) + render(entries[i]) + Lines(entries[i + 1..], render)
  {
    var upTo, after := entries[..i + 1], entries[i + 1..];
    assert entries == upTo + after;
    assert upTo[..|upTo| - 1] == entries[..i];
    LinesAppend(upTo, after, render);
  }

  /** The report opens with the `【name的奖品记录】` header, then lists the
      inventory lines under their title and the fragment lines under theirs,
      and closes with the wheel status line. */
  lemma ReportLayout(username: string, rec: UserRecord)
    ensures var r := UserReport(username, rec);
            var h, s := Header(username), StatusLine(rec);
            && |h| + |s| <= |r|
            && r[..|h|] == h
            && r[|r| - |s|..] == s
            && r[|h|..|r| - |s|] == InventoryTitle + Lines(rec.inventory, ItemLine) + FragmentTitle + Lines(rec.fragments, FragmentLine)
  {
    var h, m, s := Header(username), Listing(rec), StatusLine(rec);
    var t := h + m + s;
    assert t[..|h|] == h;
    assert t[|t| - |s|..] == s;
    assert t[|h|..|t| - |s|] == m;
  }
}
