/**
 * The public gallery: a category bar headed by the "All" sentinel and a
 * per-category filter over the shipped images.
 */
module Gallery {
  import Seqs

  datatype GalleryImage = GalleryImage(src: string, category: string, alt: string)

  /** The category bar, "All" first. */
  function Categories(): (cs: seq<string>)
    ensures |cs| == 6 && cs[0] == "All"
  {
    ["All", "Property", "Rooms", "Experiences", "Dining", "Weddings"]
  }

  /** `galleryImages`; sources are the imported asset names. */
  function GalleryImages(): seq<GalleryImage> {
    [ GalleryImage("hero-resort.jpg", "Property", "Aerial view of Aranya Resort"),
      GalleryImage("villa-interior.jpg", "Rooms", "Forest Villa Interior"),
      GalleryImage("treehouse-suite.jpg", "Rooms", "Treehouse Suite"),
      GalleryImage("pool.jpg", "Property", "Infinity Pool"),
      GalleryImage("safari.jpg", "Experiences", "Jungle Safari"),
      GalleryImage("dining.jpg", "Dining", "Candlelight Dinner"),
      GalleryImage("hero-resort.jpg", "Property", "Resort at sunset"),
      GalleryImage("villa-interior.jpg", "Rooms", "Villa bedroom"),
      GalleryImage("pool.jpg", "Weddings", "Wedding venue by pool"),
      GalleryImage("dining.jpg", "Dining", "Restaurant ambiance"),
      GalleryImage("safari.jpg", "Experiences", "Wildlife spotting"),
      GalleryImage("treehouse-suite.jpg", "Rooms", "Treehouse exterior") ]
  }

  /** The category selected when the page opens. */
  function InitialCategory(): (c: string)
    ensures c == Categories()[0]
  {
    "All"
  }

  /** The filter predicate for one category. */
  function InCategory(c: string): GalleryImage -> bool {
    (img: GalleryImage) => img.category == c
  }

  /** `filteredImages`: everything for "All", otherwise exactly the images of that category, in order. */
  function FilteredImages(images: seq<GalleryImage>, active: string): (r: seq<GalleryImage>)
    ensures active == "All" ==> r == images
    ensures active != "All" ==> forall i :: 0 <= i < |r| ==> r[i].category == active && r[i] in images
    ensures active != "All" ==> forall i :: 0 <= i < |images| && images[i].category == active ==> images[i] in r
  {
    if active == "All" then images else Seqs.Filter(images, InCategory(active))
  }

  /** A category's images keep the gallery order. */
  lemma FilteredKeepsOrder(images: seq<GalleryImage>, active: string)
    ensures Seqs.IsSubsequence(FilteredImages(images, active), images)
  {
    if active == "All" {
      Seqs.FilterAll(images, (img: GalleryImage) => true);
      Seqs.FilterIsSubsequence(images, (img: GalleryImage) => true);
    } else {
      Seqs.FilterIsSubsequence(images, InCategory(active));
    }
  }

  /** Every shipped image sits in one of the five real categories, and the categories are distinct. */
  lemma ShippedImagesCategorised()
    ensures forall i :: 0 <= i < |GalleryImages()| ==> GalleryImages()[i].category in Categories()[1..]
    ensures forall i, j :: 0 <= i < j < |Categories()| ==> Categories()[i] != Categories()[j]
  {}

  /** How many images the filters of the categories `cs` show, added up. */
  function SumCounts(images: seq<GalleryImage>, cs: seq<string>): nat
    decreases |cs|
  {
    if cs == [] then 0 else Seqs.Count(images, InCategory(cs[0])) + SumCounts(images, cs[1..])
  }

  /** How often `x` occurs in `cs`. */
  function Occurrences(cs: seq<string>, x: string): nat
    decreases |cs|
  {
    if cs == [] then 0 else (if cs[0] == x then 1 else 0) + Occurrences(cs[1..], x)
  }

  /** A value listed once in a list without repeats occurs exactly once. */
  lemma {:induction false} OccursOnce(cs: seq<string>, x: string)
    requires x in cs
    requires forall i, j :: 0 <= i < j < |cs| ==> cs[i] != cs[j]
    ensures Occurrences(cs, x) == 1
    decreases |cs|
  {
    if cs[0] == x {
      OccursNot(cs[1..], x);
    } else {
      OccursOnce(cs[1..], x);
    }
  }

  lemma {:induction false} OccursNot(cs: seq<string>, x: string)
    requires x !in cs
    ensures Occurrences(cs, x) == 0
    decreases |cs|
  {
    if cs != [] {
      OccursNot(cs[1..], x);
    }
  }

  /** The first image adds one to the count of each listed category it belongs to. */
  lemma {:induction false} SumCountsFirst(images: seq<GalleryImage>, cs: seq<string>)
    requires |images| > 0
    ensures SumCounts(images, cs) == Occurrences(cs, images[0].category) + SumCounts(images[1..], cs)
    decreases |cs|
  {
    if cs != [] {
      SumCountsFirst(images, cs[1..]);
    }
  }

  /** When every image has one of the listed categories and none is listed twice, the per-category views show each image exactly once. */
  lemma {:induction false} CategoriesPartition(images: seq<GalleryImage>, cs: seq<string>)
    requires forall i :: 0 <= i < |images| ==> images[i].category in cs
    requires forall i, j :: 0 <= i < j < |cs| ==> cs[i] != cs[j]
    ensures SumCounts(images, cs) == |images|
    decreases |images|
  {
    if images == [] {
      SumCountsEmpty(cs);
    } else {
      SumCountsFirst(images, cs);
      OccursOnce(cs, images[0].category);
      CategoriesPartition(images[1..], cs);
    }
  }

  lemma {:induction false} SumCountsEmpty(cs: seq<string>)
    ensures SumCounts([], cs) == 0
    decreases |cs|
  {
    if cs != [] {
      SumCountsEmpty(cs[1..]);
    }
  }

  /** The five real categories' views of the shipped gallery add up to its twelve images. */
  lemma ShippedCategoriesPartition()
    ensures SumCounts(GalleryImages(), Categories()[1..]) == |GalleryImages()|
  {
    var cs := Categories()[1..];
    assert cs == ["Property", "Rooms", "Experiences", "Dining", "Weddings"];
    ShippedImagesCategorised();
    CategoriesPartition(GalleryImages(), cs);
  }

  /** The count a category's view shows is its image count. */
  lemma FilteredCount(images: seq<GalleryImage>, c: string)
    requires c != "All"
    ensures |FilteredImages(images, c)| == Seqs.Count(images, InCategory(c))
  {
    Seqs.FilterCount(images, InCategory(c));
  }
}
