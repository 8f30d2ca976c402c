/** The hard-coded list of folder names that all three generators share,
    in their declared order. */
module Registry {

  const Names: seq<string> := [
    "liting", "ganrourou", "panjincheng", "huhao", "wangxinyu", "tanziqiang", "zhangxinghuo",
    "tanjierong", "fanli", "laishuanggui", "hehao", "liujunli", "zhongyupeng", "menghangxu",
    "xubo", "yuzhuokun", "shijiaxue", "zouyuxiang", "wuhan", "zhangyixin", "liuhongcheng",
    "zhouziyi", "renran", "zhengjiezhong", "chengyanping", "luoyi", "zhengronglei", "hemeilin",
    "yanghaoran", "dengxiaoyan", "wangjingsheng", "liaojiayu", "zhangjingxi", "zhangjieyi",
    "tangqiang", "huangjiajun", "hutao", "yangxiling", "xieyucan", "luoyifeng", "guwencai",
    "caichunmei"
  ]
}
