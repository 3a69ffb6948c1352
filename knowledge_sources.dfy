/**
 * Grouping the site rows by domain and rendering them as the Markdown block that the
 * system prompt embeds (`build_knowledge_sources_text`).
 *
 * The specification functions walk the rows from the front, one row at a time, exactly
 * as the loop does: `Domains` is the list the loop appends to, `Group` is what the
 * dictionary holds for one domain, `KnowledgeSourcesText` is the accumulated Markdown.
 * The lemmas state what those walks mean: the domains are distinct, are exactly the
 * domains of the rows and come in first-occurrence order; every row lands in its own
 * domain's group, in row order, and the groups hold exactly as many entries as there
 * are rows; every heading and every bullet occurs verbatim in the rendered text.
 */
module KnowledgeSources {
  import opened Sites
  import opened Text

  /** What a domain group keeps of a row: the `{"site": ..., "description": ...}` entry. */
  datatype Source = Source(site: string, description: string)

  function SourceOf(r: Row): Source
  {
    Source(r.site, r.description)
  }

  predicate NoDuplicates<T(==)>(s: seq<T>)
  {
    forall i, j :: 0 <= i < j < |s| ==> s[i] != s[j]
  }

  /** Some row has domain `d`. */
  ghost predicate HasDomain(rows: seq<Row>, d: string)
  {
    exists i :: 0 <= i < |rows| && rows[i].domain == d
  }

  /** `k` is the index of the first row whose domain is `d`. */
  ghost predicate FirstOccurrence(rows: seq<Row>, d: string, k: int)
  {
    0 <= k < |rows| && rows[k].domain == d && forall m :: 0 <= m < k ==> rows[m].domain != d
  }

  /** The index of the first row whose domain is `d`. */
  ghost function FirstIndex(rows: seq<Row>, d: string): (k: nat)
    requires HasDomain(rows, d)
    ensures FirstOccurrence(rows, d, k)
  {
    if rows[0].domain == d then 0
    else
      assert HasDomain(rows[1..], d) by {
        var i :| 0 <= i < |rows| && rows[i].domain == d;
        assert rows[1..][i - 1].domain == d;
      }
      1 + FirstIndex(rows[1..], d)
  }

  // ---------------------------------------------------------------------------
  // The first loop: the domain list and the per-domain groups
  // ---------------------------------------------------------------------------

  /** The `domains` list after the loop has seen `rows`: a domain is appended when first met. */
  function Domains(rows: seq<Row>): seq<string>
  {
    if rows == [] then []
    else
      var ds := Domains(rows[..|rows| - 1]);
      var d := rows[|rows| - 1].domain;
      if d in ds then ds else ds + [d]
  }

  /** The group `domain_groups[d]` after the loop has seen `rows`. */
  function Group(rows: seq<Row>, d: string): seq<Source>
  {
    if rows == [] then []
    else
      var last := rows[|rows| - 1];
      Group(rows[..|rows| - 1], d) + (if last.domain == d then [SourceOf(last)] else [])
  }

  /** The domain list holds exactly the domains that occur in the rows. */
  lemma {:induction false} DomainsExactly(rows: seq<Row>)
    ensures forall d :: d in Domains(rows) <==> HasDomain(rows, d)
  {
    if rows != [] {
      var p := rows[..|rows| - 1];
      var last := rows[|rows| - 1];
      DomainsExactly(p);
      forall d ensures HasDomain(rows, d) <==> HasDomain(p, d) || last.domain == d {
        if HasDomain(p, d) {
          var i :| 0 <= i < |p| && p[i].domain == d;
          assert rows[i].domain == d;
        }
        if HasDomain(rows, d) {
          var i :| 0 <= i < |rows| && rows[i].domain == d;
          if i < |p| { assert p[i].domain == d; }
        }
        if last.domain == d {
          assert rows[|rows| - 1].domain == d;
        }
      }
    }
  }

  /** The domain list never holds a domain twice. */
  lemma {:induction false} DomainsDistinct(rows: seq<Row>)
    ensures NoDuplicates(Domains(rows))
  {
    if rows != [] {
      DomainsDistinct(rows[..|rows| - 1]);
    }
  }

  /** Once some row of a prefix has domain `d`, extending the rows does not move its first occurrence. */
  lemma FirstIndexOfPrefix(rows: seq<Row>, n: nat, d: string)
    requires n <= |rows| && HasDomain(rows[..n], d)
    ensures HasDomain(rows, d)
    ensures FirstIndex(rows, d) == FirstIndex(rows[..n], d) < n
  {
    var k := FirstIndex(rows[..n], d);
    assert rows[k].domain == d;
    assert FirstOccurrence(rows, d, k);
    var k' := FirstIndex(rows, d);
    assert !(k < k') && !(k' < k);
  }

  /** The domain list is ordered by the position of each domain's first row. */
  lemma {:induction false} DomainsInFirstOccurrenceOrder(rows: seq<Row>)
    ensures forall d :: d in Domains(rows) ==> HasDomain(rows, d)
    ensures forall i, j :: 0 <= i < j < |Domains(rows)| ==>
      FirstIndex(rows, Domains(rows)[i]) < FirstIndex(rows, Domains(rows)[j])
  {
    DomainsExactly(rows);
    if rows != [] {
      var n := |rows| - 1;
      var p := rows[..n];
      var d := rows[n].domain;
      var dp := Domains(p);
      var ds := Domains(rows);
      DomainsInFirstOccurrenceOrder(p);
      forall i | 0 <= i < |dp|
        ensures FirstIndex(rows, dp[i]) == FirstIndex(p, dp[i]) < n
      {
        FirstIndexOfPrefix(rows, n, dp[i]);
      }
      if d !in dp {
        DomainsExactly(p);
        assert FirstOccurrence(rows, d, n) by {
          forall m | 0 <= m < n ensures rows[m].domain != d {
            assert p[m] == rows[m];
          }
        }
        assert FirstIndex(rows, d) == n by {
          var k := FirstIndex(rows, d);
          assert !(k < n) && !(n < k);
        }
        assert ds == dp + [d];
      }
    }
  }

  /** The groups of a concatenation are the concatenated groups: grouping keeps row order. */
  lemma {:induction false} GroupAppend(a: seq<Row>, b: seq<Row>, d: string)
    ensures Group(a + b, d) == Group(a, d) + Group(b, d)
  {
    if b == [] {
      assert a + b == a;
    } else {
      var b' := b[..|b| - 1];
      var last := b[|b| - 1];
      GroupAppend(a, b', d);
      assert (a + b)[..|a + b| - 1] == a + b';
      assert (a + b)[|a + b| - 1] == last;
    }
  }

  /** A group holds exactly the sources of the rows of its domain. */
  lemma {:induction false} GroupMembers(rows: seq<Row>, d: string)
    ensures forall s :: s in Group(rows, d) <==>
      exists i :: 0 <= i < |rows| && rows[i].domain == d && SourceOf(rows[i]) == s
  {
    if rows != [] {
      var p := rows[..|rows| - 1];
      var last := rows[|rows| - 1];
      GroupMembers(p, d);
      forall s | s in Group(rows, d)
        ensures exists i :: 0 <= i < |rows| && rows[i].domain == d && SourceOf(rows[i]) == s
      {
        if s in Group(p, d) {
          var i :| 0 <= i < |p| && p[i].domain == d && SourceOf(p[i]) == s;
          assert rows[i] == p[i];
        } else {
          assert last.domain == d && SourceOf(rows[|rows| - 1]) == s;
        }
      }
      forall s | exists i :: 0 <= i < |rows| && rows[i].domain == d && SourceOf(rows[i]) == s
        ensures s in Group(rows, d)
      {
        var i :| 0 <= i < |rows| && rows[i].domain == d && SourceOf(rows[i]) == s;
        if i < |p| {
          assert p[i] == rows[i];
        }
      }
    }
  }

  /** No group is kept for a domain that no row has. */
  lemma GroupOfAbsentDomain(rows: seq<Row>, d: string)
    requires !HasDomain(rows, d)
    ensures Group(rows, d) == []
  {
    GroupMembers(rows, d);
    assert Group(rows, d) != [] ==> Group(rows, d)[0] in Group(rows, d);
  }

  /**
   * Two rows of the same domain appear in that domain's group in the order of the rows:
   * the earlier row's entry at an earlier position.
   */
  lemma GroupKeepsRowOrder(rows: seq<Row>, i: nat, j: nat)
    requires i < j < |rows| && rows[i].domain == rows[j].domain
    ensures exists p, q ::
      (0 <= p < q < |Group(rows, rows[i].domain)|
       && Group(rows, rows[i].domain)[p] == SourceOf(rows[i])
       && Group(rows, rows[i].domain)[q] == SourceOf(rows[j]))
  {
    var d := rows[i].domain;
    var gi, gj, g := Group(rows[..i + 1], d), Group(rows[..j + 1], d), Group(rows, d);
    var p, q := |gi| - 1, |gj| - 1;
    assert 0 <= p && gi[p] == SourceOf(rows[i]) by {
      StepOneRow(rows, i, d);
    }
    assert p < q && gj[p] == gi[p] && gj[q] == SourceOf(rows[j]) by {
      StepOneRow(rows, j, d);
      GroupOfPrefix(rows, i + 1, j, d);
    }
    assert q < |g| && g[p] == gj[p] && g[q] == gj[q] by {
      GroupOfPrefix(rows, j + 1, |rows|, d);
      assert rows[..|rows|] == rows;
    }
  }

  /** The group of a shorter prefix of the rows is a prefix of the group of a longer one. */
  lemma GroupOfPrefix(rows: seq<Row>, n: nat, m: nat, d: string)
    requires n <= m <= |rows|
    ensures |Group(rows[..n], d)| <= |Group(rows[..m], d)|
    ensures Group(rows[..n], d) == Group(rows[..m], d)[..|Group(rows[..n], d)|]
  {
    GroupAppend(rows[..n], rows[n..m], d);
    assert rows[..n] + rows[n..m] == rows[..m];
  }

  /** The number of entries held by the groups of `ds`. */
  function GroupedCount(rows: seq<Row>, ds: seq<string>): nat
  {
    if ds == [] then 0
    else GroupedCount(rows, ds[..|ds| - 1]) + |Group(rows, ds[|ds| - 1])|
  }

  /** Adding one row adds one entry to each occurrence of its domain in `ds`. */
  lemma {:induction false} GroupedCountAddRow(p: seq<Row>, r: Row, ds: seq<string>)
    ensures GroupedCount(p + [r], ds) == GroupedCount(p, ds) + multiset(ds)[r.domain]
  {
    if ds != [] {
      var ds' := ds[..|ds| - 1];
      GroupedCountAddRow(p, r, ds');
      assert (p + [r])[..|p + [r]| - 1] == p;
      assert ds == ds' + [ds[|ds| - 1]];
    }
  }

  lemma {:induction false} DistinctOccurrences(ds: seq<string>, d: string)
    requires NoDuplicates(ds)
    ensures multiset(ds)[d] == if d in ds then 1 else 0
  {
    if ds != [] {
      var ds' := ds[..|ds| - 1];
      DistinctOccurrences(ds', d);
      assert ds == ds' + [ds[|ds| - 1]];
    }
  }

  /** No row is lost or duplicated: the groups together hold exactly one entry per row. */
  lemma {:induction false} GroupsHoldEveryRowOnce(rows: seq<Row>)
    ensures GroupedCount(rows, Domains(rows)) == |rows|
  {
    if rows != [] {
      var p := rows[..|rows| - 1];
      var r := rows[|rows| - 1];
      var dp := Domains(p);
      assert rows == p + [r];
      GroupsHoldEveryRowOnce(p);
      DomainsDistinct(p);
      DistinctOccurrences(dp, r.domain);
      GroupedCountAddRow(p, r, dp);
      if r.domain !in dp {
        DomainsExactly(p);
        GroupOfAbsentDomain(p, r.domain);
        assert Domains(rows) == dp + [r.domain];
        assert (dp + [r.domain])[..|dp|] == dp;
      }
    }
  }

  // ---------------------------------------------------------------------------
  // The second loop: the Markdown text
  // ---------------------------------------------------------------------------

  function Heading(d: string): string
  {
    "\n## " + d + "\n\n"
  }

  function Bullet(s: Source): string
  {
    "- " + s.site + ": " + s.description + "\n"
  }

  /** The bullet lines of a group, in group order. */
  function Bullets(ss: seq<Source>): string
  {
    if ss == [] then "" else Bullets(ss[..|ss| - 1]) + Bullet(ss[|ss| - 1])
  }

  /** One domain's section: its heading, its bullets, then an empty line. */
  function Section(d: string, ss: seq<Source>): string
  {
    Heading(d) + Bullets(ss) + "\n"
  }

  /** The sections of the domains `ds`, in that order. */
  function Sections(rows: seq<Row>, ds: seq<string>): string
  {
    if ds == [] then ""
    else Sections(rows, ds[..|ds| - 1]) + Section(ds[|ds| - 1], Group(rows, ds[|ds| - 1]))
  }

  /** The `knowledge_sources_md` text: one section per domain, in domain-list order. */
  function KnowledgeSourcesText(rows: seq<Row>): string
  {
    Sections(rows, Domains(rows))
  }

  /** Every bullet of a group occurs verbatim in the group's bullet lines. */
  lemma {:induction false} BulletOccurs(ss: seq<Source>, k: nat)
    requires k < |ss|
    ensures Occurs(Bullet(ss[k]), Bullets(ss))
  {
    var ss' := ss[..|ss| - 1];
    if k == |ss| - 1 {
      OccursItself(Bullet(ss[k]));
      OccursInLonger(Bullet(ss[k]), Bullet(ss[k]), Bullets(ss'));
    } else {
      BulletOccurs(ss', k);
      OccursInLonger(Bullet(ss[k]), Bullets(ss'), Bullet(ss[|ss| - 1]));
    }
  }

  /** Every domain's section occurs verbatim in the rendered sections. */
  lemma {:induction false} SectionOccurs(rows: seq<Row>, ds: seq<string>, j: nat)
    requires j < |ds|
    ensures Occurs(Section(ds[j], Group(rows, ds[j])), Sections(rows, ds))
  {
    var ds' := ds[..|ds| - 1];
    var sec := Section(ds[j], Group(rows, ds[j]));
    if j == |ds| - 1 {
      OccursItself(sec);
      OccursInLonger(sec, sec, Sections(rows, ds'));
    } else {
      SectionOccurs(rows, ds', j);
      OccursInLonger(sec, Sections(rows, ds'), Section(ds[|ds| - 1], Group(rows, ds[|ds| - 1])));
    }
  }

  /** A domain's heading opens its section. */
  lemma HeadingOpensSection(d: string, ss: seq<Source>)
    ensures Occurs(Heading(d), Section(d, ss))
  {
    var sec := Section(d, ss);
    assert sec[0..|Heading(d)|] == Heading(d);
    assert OccursAt(Heading(d), sec, 0);
  }

  /** Every bullet of a group occurs in the group's section. */
  lemma BulletInSection(d: string, ss: seq<Source>, k: nat)
    requires k < |ss|
    ensures Occurs(Bullet(ss[k]), Section(d, ss))
  {
    BulletOccurs(ss, k);
    OccursInLonger(Bullet(ss[k]), Bullets(ss), "\n");
    OccursInLonger(Bullet(ss[k]), Bullets(ss) + "\n", Heading(d));
    Associative(Heading(d), Bullets(ss), "\n");
  }

  /** Every row's domain heading occurs verbatim in the rendered text. */
  lemma EveryDomainHeadingListed(rows: seq<Row>, i: nat)
    requires i < |rows|
    ensures Occurs(Heading(rows[i].domain), KnowledgeSourcesText(rows))
  {
    var d := rows[i].domain;
    var ds := Domains(rows);
    DomainsExactly(rows);
    assert d in ds;
    var j :| 0 <= j < |ds| && ds[j] == d;
    SectionOccurs(rows, ds, j);
    HeadingOpensSection(d, Group(rows, d));
    OccursInPiece(Heading(d), Section(d, Group(rows, d)), KnowledgeSourcesText(rows));
  }

  /** Every row's own `- site: description` line occurs verbatim in the rendered text. */
  lemma EveryRowBulletListed(rows: seq<Row>, i: nat)
    requires i < |rows|
    ensures Occurs(Bullet(SourceOf(rows[i])), KnowledgeSourcesText(rows))
  {
    var d := rows[i].domain;
    var ds := Domains(rows);
    DomainsExactly(rows);
    assert d in ds;
    var j :| 0 <= j < |ds| && ds[j] == d;
    var g := Group(rows, d);
    SectionOccurs(rows, ds, j);
    GroupMembers(rows, d);
    assert SourceOf(rows[i]) in g;
    var k :| 0 <= k < |g| && g[k] == SourceOf(rows[i]);
    BulletInSection(d, g, k);
    OccursInPiece(Bullet(g[k]), Section(d, g), KnowledgeSourcesText(rows));
  }

  /** What one more row does to the domain list and to one group. */
  lemma StepOneRow(rows: seq<Row>, i: nat, d: string)
    requires i < |rows|
    ensures Domains(rows[..i + 1]) ==
      if rows[i].domain in Domains(rows[..i]) then Domains(rows[..i]) else Domains(rows[..i]) + [rows[i].domain]
    ensures Group(rows[..i + 1], d) ==
      Group(rows[..i], d) + (if rows[i].domain == d then [SourceOf(rows[i])] else [])
  {
    assert rows[..i + 1][..i] == rows[..i];
  }

  // ---------------------------------------------------------------------------
  // The imperative procedure
  // ---------------------------------------------------------------------------

  /**
   * `build_knowledge_sources_text`: one pass over the rows fills the domain list and the
   * domain-to-group dictionary; a second pass, over the dictionary in insertion order
   * (which is the domain list's order), appends each section to the text.
   */
  method BuildKnowledgeSourcesText(rows: seq<Row>) returns (md: string, domains: seq<string>)
    ensures domains == Domains(rows) && md == KnowledgeSourcesText(rows)
    ensures NoDuplicates(domains)
    ensures forall d :: d in domains <==> HasDomain(rows, d)
    ensures rows == [] ==> md == "" && domains == []
  {
    var groups;
    domains, groups := GroupByDomain(rows);
    md := RenderSections(rows, domains, groups);
    DomainsDistinct(rows);
    DomainsExactly(rows);
  }

  /** The first loop: the domain list, and the dictionary from each listed domain to its group. */
  method GroupByDomain(rows: seq<Row>) returns (domains: seq<string>, groups: map<string, seq<Source>>)
    ensures domains == Domains(rows)
    ensures forall d :: d in groups <==> d in domains
    ensures forall d :: d in groups ==> groups[d] == Group(rows, d)
  {
    groups := map[];
    domains := [];
    for i := 0 to |rows|
      invariant domains == Domains(rows[..i])
      invariant forall d :: d in groups <==> d in domains
      invariant forall d :: d in groups ==> groups[d] == Group(rows[..i], d)
    {
      var domain := rows[i].domain;
      StepOneRow(rows, i, domain);
      if domain !in groups {
        domains := domains + [domain];
        groups := groups[domain := []];
        assert Group(rows[..i], domain) == [] by {
          DomainsExactly(rows[..i]);
          GroupOfAbsentDomain(rows[..i], domain);
        }
      }
      groups := groups[domain := groups[domain] + [Source(rows[i].site, rows[i].description)]];
      forall d | d in groups ensures groups[d] == Group(rows[..i + 1], d) {
        StepOneRow(rows, i, d);
      }
    }
    assert rows[..|rows|] == rows;
  }

  /** The second loop: each listed domain's section, in list order, appended to the text. */
  method RenderSections(rows: seq<Row>, domains: seq<string>, groups: map<string, seq<Source>>) returns (md: string)
    requires forall d :: d in domains ==> d in groups && groups[d] == Group(rows, d)
    ensures md == Sections(rows, domains)
  {
    md := "";
    for j := 0 to |domains|
      invariant md == Sections(rows, domains[..j])
    {
      var domain := domains[j];
      var sources := groups[domain];
      ghost var before := md;
      md := md + "\n## " + domain + "\n\n";
      ghost var head := md;
      for k := 0 to |sources|
        invariant md == head + Bullets(sources[..k])
      {
        var line := "- " + sources[k].site + ": " + sources[k].description + "\n";
        BulletStep(head, sources, k, line);
        md := md + line;
      }
      md := md + "\n";
      SectionStep(rows, domains, j, before, head, md);
    }
    assert domains[..|domains|] == domains;
  }

  /** One bullet line appended by the inner loop extends the bullets by one entry. */
  lemma BulletStep(head: string, sources: seq<Source>, k: nat, line: string)
    requires k < |sources|
    requires line == "- " + sources[k].site + ": " + sources[k].description + "\n"
    ensures head + Bullets(sources[..k]) + line == head + Bullets(sources[..k + 1])
  {
    assert sources[..k + 1][..k] == sources[..k];
  }

  /** One finished section appended by the outer loop extends the text by one domain. */
  lemma SectionStep(rows: seq<Row>, ds: seq<string>, j: nat, before: string, head: string, md: string)
    requires j < |ds|
    requires before == Sections(rows, ds[..j])
    requires head == before + "\n## " + ds[j] + "\n\n"
    requires md == head + Bullets(Group(rows, ds[j])[..|Group(rows, ds[j])|]) + "\n"
    ensures md == Sections(rows, ds[..j + 1])
  {
    var g := Group(rows, ds[j]);
    var d := ds[j];
    assert g[..|g|] == g;
    assert ds[..j + 1][..j] == ds[..j];
    Associative(before + "\n## ", d, "\n\n");
    Associative(before, "\n## ", d + "\n\n");
    assert head == before + Heading(d);
    Associative(before, Heading(d), Bullets(g));
    Associative(before, Heading(d) + Bullets(g), "\n");
    assert md == before + Section(d, g);
  }
}
