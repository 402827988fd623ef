/** The sidebar's job-board checkboxes and the list of site identifiers built from them. */
module SiteSelection {
  import opened Seqs

  /** The identifiers the scraper knows, in the order the checkboxes appear. */
  const AllSites: seq<string> := ["indeed", "linkedin", "zip_recruiter", "glassdoor", "google", "bayt"]

  /** The state of the six board checkboxes (Indeed is ticked by default in the UI). */
  datatype Checkboxes = Checkboxes(
    indeed: bool,
    linkedin: bool,
    zipRecruiter: bool,
    glassdoor: bool,
    google: bool,
    bayt: bool)

  /** The checkbox values in the order of `AllSites`. */
  function Flags(c: Checkboxes): (f: seq<bool>)
    ensures |f| == |AllSites|
  {
    [c.indeed, c.linkedin, c.zipRecruiter, c.glassdoor, c.google, c.bayt]
  }

  /** The names whose flag is set, in their original order. */
  function Pick(flags: seq<bool>, names: seq<string>): seq<string>
    requires |flags| == |names|
    decreases |names|
  {
    if names == [] then []
    else (if flags[0] then [names[0]] else []) + Pick(flags[1..], names[1..])
  }

  /** The site list the search is run with: the ticked boards, in checkbox order. */
  function SelectedSites(c: Checkboxes): seq<string>
  {
    Pick(Flags(c), AllSites)
  }

  /** The sidebar's construction of `site_names`: start from the empty list and
      append the identifier of each ticked box, one box after the other. */
  method AssembleSiteNames(c: Checkboxes) returns (siteNames: seq<string>)
    ensures siteNames == SelectedSites(c)
  {
    siteNames := [];
    if c.indeed {
      siteNames := siteNames + ["indeed"];
    }
    ghost var s1 := siteNames;
    if c.linkedin {
      siteNames := siteNames + ["linkedin"];
    }
    ghost var s2 := siteNames;
    if c.zipRecruiter {
      siteNames := siteNames + ["zip_recruiter"];
    }
    ghost var s3 := siteNames;
    if c.glassdoor {
      siteNames := siteNames + ["glassdoor"];
    }
    ghost var s4 := siteNames;
    if c.google {
      siteNames := siteNames + ["google"];
    }
    ghost var s5 := siteNames;
    if c.bayt {
      siteNames := siteNames + ["bayt"];
    }
    AppendsPickTicked(c, s1, s2, s3, s4, s5, siteNames);
  }

  /** The contribution of box `k`: its identifier if ticked, nothing otherwise. */
  function Contribution(flags: seq<bool>, names: seq<string>, k: nat): seq<string>
    requires |flags| == |names| && k < |names|
  {
    if flags[k] then [names[k]] else []
  }

  /** Appending the identifiers of the ticked boxes one after the other, as
      `AssembleSiteNames` does, builds exactly `SelectedSites`. */
  lemma AppendsPickTicked(c: Checkboxes, s1: seq<string>, s2: seq<string>, s3: seq<string>,
                          s4: seq<string>, s5: seq<string>, s6: seq<string>)
    requires s1 == if c.indeed then ["indeed"] else []
    requires s2 == s1 + if c.linkedin then ["linkedin"] else []
    requires s3 == s2 + if c.zipRecruiter then ["zip_recruiter"] else []
    requires s4 == s3 + if c.glassdoor then ["glassdoor"] else []
    requires s5 == s4 + if c.google then ["google"] else []
    requires s6 == s5 + if c.bayt then ["bayt"] else []
    ensures s6 == SelectedSites(c)
  {
    ContributionsOfBoxes(c);
    AppendedContributions(Flags(c), AllSites, s1, s2, s3, s4, s5, s6);
  }

  /** What each box contributes to the site list. */
  lemma ContributionsOfBoxes(c: Checkboxes)
    ensures Contribution(Flags(c), AllSites, 0) == if c.indeed then ["indeed"] else []
    ensures Contribution(Flags(c), AllSites, 1) == if c.linkedin then ["linkedin"] else []
    ensures Contribution(Flags(c), AllSites, 2) == if c.zipRecruiter then ["zip_recruiter"] else []
    ensures Contribution(Flags(c), AllSites, 3) == if c.glassdoor then ["glassdoor"] else []
    ensures Contribution(Flags(c), AllSites, 4) == if c.google then ["google"] else []
    ensures Contribution(Flags(c), AllSites, 5) == if c.bayt then ["bayt"] else []
  {
  }

  /** Six contributions appended in order make up what `Pick` selects from six names. */
  lemma AppendedContributions(f: seq<bool>, n: seq<string>, s1: seq<string>, s2: seq<string>,
                              s3: seq<string>, s4: seq<string>, s5: seq<string>, s6: seq<string>)
    requires |f| == |n| == 6
    requires s1 == Contribution(f, n, 0)
    requires s2 == s1 + Contribution(f, n, 1)
    requires s3 == s2 + Contribution(f, n, 2)
    requires s4 == s3 + Contribution(f, n, 3)
    requires s5 == s4 + Contribution(f, n, 4)
    requires s6 == s5 + Contribution(f, n, 5)
    ensures s6 == Pick(f, n)
  {
    assert f[..0] == [] && n[..0] == [];
    PickExtend(f, n, 0, [], s1);
    PickExtend(f, n, 1, s1, s2);
    PickExtend(f, n, 2, s2, s3);
    PickExtend(f, n, 3, s3, s4);
    PickExtend(f, n, 4, s4, s5);
    PickExtend(f, n, 5, s5, s6);
    assert f[..6] == f && n[..6] == n;
  }

  /** Appending the contribution of position `k` to what was picked from the
      first `k` positions gives what is picked from the first `k + 1`. */
  lemma PickExtend(flags: seq<bool>, names: seq<string>, k: nat, prev: seq<string>, next: seq<string>)
    requires |flags| == |names| && k < |names|
    requires prev == Pick(flags[..k], names[..k])
    requires next == prev + Contribution(flags, names, k)
    ensures next == Pick(flags[..k + 1], names[..k + 1])
  {
    PickSnoc(flags[..k + 1], names[..k + 1]);
    assert flags[..k + 1][..k] == flags[..k] && names[..k + 1][..k] == names[..k];
  }

  /** `Pick` read from the back: the last position contributes last. */
  lemma {:induction false} PickSnoc(flags: seq<bool>, names: seq<string>)
    requires |flags| == |names| && 0 < |names|
    ensures Pick(flags, names) == Pick(flags[..|names| - 1], names[..|names| - 1]) + Contribution(flags, names, |names| - 1)
    decreases |names|
  {
    var m := |names| - 1;
    if m == 0 {
      assert flags[..0] == [] && names[..0] == [];
    } else {
      PickSnoc(flags[1..], names[1..]);
      assert flags[1..][..m - 1] == flags[..m][1..] && names[1..][..m - 1] == names[..m][1..];
      assert Contribution(flags[1..], names[1..], m - 1) == Contribution(flags, names, m);
    }
  }

  /** A name is picked exactly when it stands at a position whose flag is set. */
  lemma {:induction false} PickMembers(flags: seq<bool>, names: seq<string>, x: string)
    requires |flags| == |names|
    ensures x in Pick(flags, names) <==> exists k :: 0 <= k < |names| && names[k] == x && flags[k]
    decreases |names|
  {
    if names != [] {
      PickMembers(flags[1..], names[1..], x);
      if x in Pick(flags[1..], names[1..]) {
        var k :| 0 <= k < |names| - 1 && names[1..][k] == x && flags[1..][k];
        assert names[k + 1] == x && flags[k + 1];
      }
      if exists k :: 0 <= k < |names| && names[k] == x && flags[k] {
        var k :| 0 <= k < |names| && names[k] == x && flags[k];
        if k > 0 {
          assert names[1..][k - 1] == x && flags[1..][k - 1];
        }
      }
    }
  }

  /** The picked names keep their original order. */
  lemma {:induction false} PickOrdered(flags: seq<bool>, names: seq<string>)
    requires |flags| == |names|
    ensures IsSubsequence(Pick(flags, names), names)
    decreases |names|
  {
    if names != [] {
      PickOrdered(flags[1..], names[1..]);
      var a, rest := Pick(flags, names), Pick(flags[1..], names[1..]);
      if flags[0] {
        assert a == [names[0]] + rest && a[1..] == rest;
      } else {
        assert a == rest;
      }
    }
  }

  /** Picking from distinct names yields distinct names. */
  lemma {:induction false} PickDistinct(flags: seq<bool>, names: seq<string>)
    requires |flags| == |names|
    requires NoDuplicates(names)
    ensures NoDuplicates(Pick(flags, names))
    decreases |names|
  {
    if names != [] {
      PickDistinct(flags[1..], names[1..]);
      var rest := Pick(flags[1..], names[1..]);
      if flags[0] {
        PickOrdered(flags[1..], names[1..]);
        SubsequenceMembers(rest, names[1..]);
        forall j | 0 <= j < |names| - 1 ensures names[1..][j] != names[0] {
          assert names[1..][j] == names[j + 1];
        }
        assert names[0] !in rest;
        var s := [names[0]] + rest;
        forall p, q | 0 <= p < q < |s| ensures s[p] != s[q] {
          if p == 0 {
            assert s[q] == rest[q - 1];
          } else {
            assert s[p] == rest[p - 1] && s[q] == rest[q - 1];
          }
        }
      }
    }
  }

  /** The assembled site list holds exactly the identifiers whose box is ticked. */
  lemma SelectedSitesMembers(c: Checkboxes, x: string)
    ensures x in SelectedSites(c) <==> exists k :: 0 <= k < |AllSites| && AllSites[k] == x && Flags(c)[k]
  {
    PickMembers(Flags(c), AllSites, x);
  }

  /** The assembled site list follows the checkbox order indeed, linkedin,
      zip_recruiter, glassdoor, google, bayt, so it has at most six entries. */
  lemma SelectedSitesOrdered(c: Checkboxes)
    ensures IsSubsequence(SelectedSites(c), AllSites)
    ensures |SelectedSites(c)| <= 6
  {
    PickOrdered(Flags(c), AllSites);
    SubsequenceLength(SelectedSites(c), AllSites);
  }

  /** No identifier occurs twice in the assembled site list. */
  lemma SelectedSitesDistinct(c: Checkboxes)
    ensures NoDuplicates(SelectedSites(c))
  {
    PickDistinct(Flags(c), AllSites);
  }

  /** Nothing is picked exactly when no flag is set. */
  lemma {:induction false} PickEmpty(flags: seq<bool>, names: seq<string>)
    requires |flags| == |names|
    ensures Pick(flags, names) == [] <==> forall k :: 0 <= k < |flags| ==> !flags[k]
    decreases |names|
  {
    if names != [] {
      PickEmpty(flags[1..], names[1..]);
      if !flags[0] && Pick(flags[1..], names[1..]) == [] {
        forall k | 0 <= k < |flags| ensures !flags[k] {
          if k > 0 {
            assert flags[1..][k - 1] == flags[k];
          }
        }
      }
    }
  }

  /** The site list is empty exactly when no box is ticked. */
  lemma EmptyIffNothingTicked(c: Checkboxes)
    ensures SelectedSites(c) == [] <==>
      !(c.indeed || c.linkedin || c.zipRecruiter || c.glassdoor || c.google || c.bayt)
  {
    var f := Flags(c);
    PickEmpty(f, AllSites);
    assert f[0] == c.indeed && f[1] == c.linkedin && f[2] == c.zipRecruiter;
    assert f[3] == c.glassdoor && f[4] == c.google && f[5] == c.bayt;
  }
}
