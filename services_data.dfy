/**
 * The constant services catalogue (src/data/services.ts): five categories and,
 * keyed by category id, the detail shown for each.
 */
module ServicesData {
  datatype ServiceCategory = ServiceCategory(id: string, title: string, description: string)

  datatype TechItem = TechItem(name: string, icon: string, description: string)

  datatype CaseStudy = CaseStudy(id: string, title: string, client: string, link: string)

  datatype ServiceDetail = ServiceDetail(
    categoryId: string,
    title: string,
    shortDescription: string,
    benefits: seq<string>,
    techStack: seq<TechItem>,
    relatedCaseStudies: seq<CaseStudy>)

  /** The categories, in display order. */
  const Categories: seq<ServiceCategory> := [
    ServiceCategory("web-dev", "Web Development",
      "Custom websites and web applications built with modern technologies."),
    ServiceCategory("mobile-dev", "Mobile Development",
      "Native and cross-platform mobile apps for iOS and Android."),
    ServiceCategory("ui-ux", "UI/UX Design",
      "User-centered design that drives engagement and conversion."),
    ServiceCategory("cloud", "Cloud Solutions",
      "Scalable cloud infrastructure and DevOps services."),
    ServiceCategory("digital-marketing", "Digital Marketing",
      "Data-driven marketing strategies to grow your business.")
  ]

  const WebDev: ServiceDetail := ServiceDetail(
    "web-dev", "Custom Web Development",
    "We build fast, responsive, and SEO-friendly websites.",
    ["Responsive design for all devices", "SEO-optimized code structure",
     "High performance and fast loading speeds", "Secure and scalable architecture"],
    [TechItem("React", "react", "Frontend Library"),
     TechItem("Next.js", "nextjs", "React Framework"),
     TechItem("TypeScript", "typescript", "Type Safety"),
     TechItem("Node.js", "nodejs", "Backend Runtime")],
    [CaseStudy("cs1", "E-commerce Platform Revamp", "ShopifyPlus", "/case-studies/ecommerce"),
     CaseStudy("cs2", "SaaS Dashboard Interface", "DataFlow", "/case-studies/saas")])

  const MobileDev: ServiceDetail := ServiceDetail(
    "mobile-dev", "Mobile App Development",
    "Native and cross-platform apps for iOS and Android.",
    ["Native performance and feel", "Cross-platform compatibility",
     "Offline capabilities", "Push notification integration"],
    [TechItem("React Native", "react", "Cross-platform"),
     TechItem("Flutter", "flutter", "Google UI Toolkit"),
     TechItem("Swift", "swift", "iOS Native"),
     TechItem("Kotlin", "kotlin", "Android Native")],
    [CaseStudy("cs3", "Fitness Tracking App", "FitLife", "/case-studies/fitness")])

  const UiUx: ServiceDetail := ServiceDetail(
    "ui-ux", "UI/UX Design",
    "User-centered design that drives engagement.",
    ["User research and persona development", "Interactive prototyping",
     "Design systems and style guides", "Accessibility compliance"],
    [TechItem("Figma", "figma", "Design Tool"),
     TechItem("Adobe XD", "xd", "Prototyping"),
     TechItem("Sketch", "sketch", "Vector Graphics")],
    [])

  const CloudDetail: ServiceDetail := ServiceDetail(
    "cloud", "Cloud Infrastructure",
    "Scalable and secure cloud solutions.",
    ["Automated CI/CD pipelines", "Infrastructure as Code",
     "24/7 Monitoring and alerts", "Cost optimization strategies"],
    [TechItem("AWS", "aws", "Cloud Provider"),
     TechItem("Docker", "docker", "Containerization"),
     TechItem("Kubernetes", "kubernetes", "Orchestration")],
    [])

  const DigitalMarketing: ServiceDetail := ServiceDetail(
    "digital-marketing", "Digital Marketing Strategies",
    "Grow your reach with data-driven marketing.",
    ["Search Engine Optimization (SEO)", "Social Media Management",
     "Content Strategy", "Analytics and Reporting"],
    [TechItem("Google Analytics", "analytics", "Tracking"),
     TechItem("SEMrush", "semrush", "SEO Tool")],
    [])

  /** The details in the categories' order. */
  const Details: seq<ServiceDetail> := [WebDev, MobileDev, UiUx, CloudDetail, DigitalMarketing]

  /** `servicesData`: the detail of each category, keyed by its id. */
  function Catalogue(): map<string, ServiceDetail> {
    map["web-dev" := WebDev, "mobile-dev" := MobileDev, "ui-ux" := UiUx,
        "cloud" := CloudDetail, "digital-marketing" := DigitalMarketing]
  }

  /** The ids of the categories. */
  function CategoryIds(): (r: seq<string>)
    ensures |r| == |Categories| && forall i :: 0 <= i < |r| ==> r[i] == Categories[i].id
  {
    [Categories[0].id, Categories[1].id, Categories[2].id, Categories[3].id, Categories[4].id]
  }

  /** No two categories share an id. */
  lemma CategoryIdsDistinct()
    ensures forall i, j :: 0 <= i < j < |Categories| ==> Categories[i].id != Categories[j].id
  {
    assert Categories[0].id[0] == 'w' && Categories[1].id[0] == 'm' && Categories[2].id[0] == 'u';
    assert Categories[3].id[0] == 'c' && Categories[4].id[0] == 'd';
  }

  /** Every category has its detail, that detail names its own category, and
      the catalogue holds nothing else: the page's lookup by category id
      always finds the matching entry. */
  lemma CatalogueMatchesCategories()
    ensures forall i :: 0 <= i < |Categories| ==>
      Categories[i].id in Catalogue() && Catalogue()[Categories[i].id] == Details[i]
    ensures forall i :: 0 <= i < |Categories| ==> Details[i].categoryId == Categories[i].id
    ensures forall k :: k in Catalogue() ==> exists i :: 0 <= i < |Categories| && Categories[i].id == k
  {
    var ids := CategoryIds();
    assert forall k :: k in Catalogue() ==> k == ids[0] || k == ids[1] || k == ids[2] || k == ids[3] || k == ids[4];
  }

  /** Within one service the technologies are listed once each. */
  lemma TechNamesDistinct()
    ensures forall d, i, j :: 0 <= d < |Details| && 0 <= i < j < |Details[d].techStack| ==>
      Details[d].techStack[i].name != Details[d].techStack[j].name
  {
    assert WebDev.techStack[0].name[0] == 'R' && WebDev.techStack[1].name[0] == 'N';
    assert WebDev.techStack[2].name[0] == 'T' && WebDev.techStack[3].name[1] == 'o';
    assert WebDev.techStack[1].name[1] == 'e';
    assert MobileDev.techStack[0].name[0] == 'R' && MobileDev.techStack[1].name[0] == 'F';
    assert MobileDev.techStack[2].name[0] == 'S' && MobileDev.techStack[3].name[0] == 'K';
    assert UiUx.techStack[0].name[0] == 'F' && UiUx.techStack[1].name[0] == 'A' && UiUx.techStack[2].name[0] == 'S';
    assert CloudDetail.techStack[0].name[0] == 'A' && CloudDetail.techStack[1].name[0] == 'D';
    assert CloudDetail.techStack[2].name[0] == 'K';
    assert DigitalMarketing.techStack[0].name[0] == 'G' && DigitalMarketing.techStack[1].name[0] == 'S';
  }

  /** All related case studies, across services. */
  function AllCaseStudies(): (r: seq<CaseStudy>)
    ensures forall d, i :: 0 <= d < |Details| && 0 <= i < |Details[d].relatedCaseStudies| ==>
      Details[d].relatedCaseStudies[i] in r
  {
    WebDev.relatedCaseStudies + MobileDev.relatedCaseStudies + UiUx.relatedCaseStudies
      + CloudDetail.relatedCaseStudies + DigitalMarketing.relatedCaseStudies
  }

  /** A case study is listed under one service only, and once there. */
  lemma CaseStudyIdsDistinct()
    ensures |AllCaseStudies()| == 3
    ensures forall i, j :: 0 <= i < j < |AllCaseStudies()| ==> AllCaseStudies()[i].id != AllCaseStudies()[j].id
  {
    var all := AllCaseStudies();
    assert all == WebDev.relatedCaseStudies + MobileDev.relatedCaseStudies;
    assert all[0].id[2] == '1' && all[1].id[2] == '2' && all[2].id[2] == '3';
  }
}
