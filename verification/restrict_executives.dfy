/** The middleware that keeps executives away from the three pre-evaluation
    status pages. It normalises the path status with `ucfirst` only. */
module RestrictExecutives {
  import opened Common
  import opened ArticleModel
  import opened Roles

  const RestrictedStatuses: seq<string> := [STATUS_REVIEW, STATUS_UPDATED, STATUS_REVISION]

  /** The path statuses the middleware refuses an executive: the three names
      with their first letter in either case. */
  const BlockedSpellings: set<string> := {"Review", "review", "Updated", "updated", "Revision", "revision"}

  /** The middleware either aborts or hands the request, untouched, to the next layer. */
  datatype Verdict = PassOn(status: string) | Abort(code: Outcome)

  /** `handle`. */
  function Handle(u: User, status: string): (v: Verdict)
    ensures v.PassOn? ==> v.status == status
    ensures v.Abort? ==> v.code == Forbidden && HasRole(u, EXECUTIVE)
  {
    if HasRole(u, EXECUTIVE) && Ucfirst(status) in RestrictedStatuses then Abort(Forbidden)
    else PassOn(status)
  }

  lemma UpperCharIs(c: char, target: char)
    requires IsUpperAscii(target)
    ensures UpperChar(c) == target <==> c == target || c as int == target as int + 32
  {
  }

  /** `ucfirst(s)` is one of the restricted names exactly when `s` is one of
      them with its first letter in either case. */
  lemma {:induction false} UcfirstRestricted(s: string)
    ensures Ucfirst(s) in RestrictedStatuses <==> s in BlockedSpellings
  {
    if Ucfirst(s) in RestrictedStatuses {
      var t := Ucfirst(s);
      assert |s| == |t| > 0;
      UpperCharIs(s[0], t[0]);
      assert s == [s[0]] + t[1..];
      assert s[0] == t[0] || s[0] as int == t[0] as int + 32;
      if t == STATUS_REVIEW {
        assert s == "Review" || s == "review";
      } else if t == STATUS_UPDATED {
        assert s == "Updated" || s == "updated";
      } else {
        assert s == "Revision" || s == "revision";
      }
    }
    if s in BlockedSpellings {
      var t := Ucfirst(s);
      assert t == [UpperChar(s[0])] + s[1..];
      if s in {"Review", "review"} {
        assert t == STATUS_REVIEW;
      } else if s in {"Updated", "updated"} {
        assert t == STATUS_UPDATED;
      } else {
        assert t == STATUS_REVISION;
      }
    }
  }

  /** The middleware aborts exactly for an executive asking for one of the
      blocked spellings; everything else is passed on unchanged. */
  lemma HandleBlocksExactly(u: User, status: string)
    ensures Handle(u, status).Abort? <==> HasRole(u, EXECUTIVE) && status in BlockedSpellings
    ensures Handle(u, status).Abort? ==> Handle(u, status).code == Forbidden
    ensures Handle(u, status).PassOn? ==> Handle(u, status).status == status
  {
    UcfirstRestricted(status);
  }

  /** The evaluated and approved pages are open to executives, and a
      non-executive is never stopped. All-capitals spelling is not normalised. */
  lemma HandlePasses(u: User, status: string)
    ensures status in {STATUS_EVALUATED, STATUS_APPROVED} ==> Handle(u, status) == PassOn(status)
    ensures !HasRole(u, EXECUTIVE) ==> Handle(u, status) == PassOn(status)
    ensures Handle(u, "REVIEW") == PassOn("REVIEW")
  {
    UcfirstRestricted(status);
    UcfirstRestricted("REVIEW");
  }
}
