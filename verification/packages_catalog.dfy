/**
 * The public packages page: a "Featured Packages" section and an
 * "All Packages" section that, despite its title, lists the rest.
 */
module PackagesCatalog {
  import Seqs

  datatype PackageCard = PackageCard(name: string, featured: bool)

  /** The shipped `packages` list, by name (images, taglines, prices and inclusions left out). */
  function Catalog(): seq<PackageCard> {
    [ PackageCard("Safari Package", true),
      PackageCard("Honeymoon Package", true),
      PackageCard("Weekend Getaway", false),
      PackageCard("Family Package", false),
      PackageCard("Corporate Package", false),
      PackageCard("Wedding Package", false) ]
  }

  predicate IsFeatured(p: PackageCard) { p.featured }

  /** The featured section: exactly the featured packages, in list order. */
  function FeaturedSection(ps: seq<PackageCard>): (r: seq<PackageCard>)
    ensures forall i :: 0 <= i < |r| ==> r[i].featured && r[i] in ps
    ensures forall i :: 0 <= i < |ps| && ps[i].featured ==> ps[i] in r
  {
    Seqs.Filter(ps, IsFeatured)
  }

  /** The "All Packages" section: exactly the packages not featured, in list order. */
  function OtherSection(ps: seq<PackageCard>): (r: seq<PackageCard>)
    ensures forall i :: 0 <= i < |r| ==> !r[i].featured && r[i] in ps
    ensures forall i :: 0 <= i < |ps| && !ps[i].featured ==> ps[i] in r
  {
    Seqs.Filter(ps, Seqs.Not(IsFeatured))
  }

  /** The two sections are disjoint, keep list order, and together show every package exactly once. */
  lemma SectionsPartition(ps: seq<PackageCard>)
    ensures multiset(FeaturedSection(ps)) + multiset(OtherSection(ps)) == multiset(ps)
    ensures |FeaturedSection(ps)| + |OtherSection(ps)| == |ps|
    ensures Seqs.IsSubsequence(FeaturedSection(ps), ps) && Seqs.IsSubsequence(OtherSection(ps), ps)
    ensures forall i, j :: 0 <= i < |FeaturedSection(ps)| && 0 <= j < |OtherSection(ps)| ==> FeaturedSection(ps)[i] != OtherSection(ps)[j]
  {
    Seqs.FilterPartition(ps, IsFeatured);
    Seqs.FilterIsSubsequence(ps, IsFeatured);
    Seqs.FilterIsSubsequence(ps, Seqs.Not(IsFeatured));
  }

  /** The shipped list features Safari and Honeymoon. */
  lemma ShippedFeatured()
    ensures |FeaturedSection(Catalog())| == 2
    ensures FeaturedSection(Catalog())[0].name == "Safari Package"
    ensures FeaturedSection(Catalog())[1].name == "Honeymoon Package"
  {
    var c := Catalog();
    Seqs.FilterCount(c, IsFeatured);
    var f := FeaturedSection(c);
    assert f[0] == c[0] && f[1] == c[1];
  }

  /** The shipped list shows the other four packages below. */
  lemma ShippedOthers()
    ensures |OtherSection(Catalog())| == 4
  {
    Seqs.FilterCount(Catalog(), Seqs.Not(IsFeatured));
  }
}
